/**
 * The review-timing engine of `pr_review_speed_analyzer.rb`: which pull
 * requests involve the reviewer, whether each is a design review, when the
 * review clock starts, how late the first review was, and the on-time rate of
 * each category against the 70% target.
 */
module ReviewSpeed {
  import opened Wrappers
  import opened Rounding
  import opened GitHub
  import opened Pagination

  // ---------------------------------------------------------------------------
  // Keyword classification (`is_design_review?`)

  /** `downcase` on one character; only the ASCII letters A-Z have a lower case here. */
  function LowerChar(c: char): char {
    if 'A' <= c <= 'Z' then (c as int + 32) as char else c
  }

  function Lower(s: string): string {
    seq(|s|, i requires 0 <= i < |s| => LowerChar(s[i]))
  }

  /** `downcase` on ASCII: capital letters become their small letters, every other character is kept. */
  lemma LowerSpec(s: string)
    ensures |Lower(s)| == |s|
    ensures forall i :: 0 <= i < |s| ==> !('A' <= Lower(s)[i] <= 'Z')
    ensures forall i :: 0 <= i < |s| && 'A' <= s[i] <= 'Z' ==> Lower(s)[i] as int == s[i] as int + 32
    ensures forall i :: 0 <= i < |s| && !('A' <= s[i] <= 'Z') ==> Lower(s)[i] == s[i]
  {
  }

  /** `needle` starts at position `i` of `hay`. */
  ghost predicate OccursAt(hay: string, needle: string, i: int) {
    0 <= i && i + |needle| <= |hay| && hay[i..i + |needle|] == needle
  }

  /** `String#include?`: `needle` is a substring of `hay` (the empty string is in every string). */
  function Contains(hay: string, needle: string): (r: bool)
    ensures r <==> exists i :: OccursAt(hay, needle, i)
    decreases |hay|
  {
    if |needle| > |hay| then false
    else if hay[..|needle|] == needle then
      assert OccursAt(hay, needle, 0);
      true
    else
      OccursShift(hay, needle);
      Contains(hay[1..], needle)
  }

  /** Away from position 0, occurrences in `hay` are those in `hay[1..]`, shifted by one. */
  lemma OccursShift(hay: string, needle: string)
    requires 1 <= |hay| && |needle| <= |hay| && hay[..|needle|] != needle
    ensures (exists i :: OccursAt(hay, needle, i)) <==> (exists i :: OccursAt(hay[1..], needle, i))
  {
    if i :| OccursAt(hay, needle, i) {
      assert i != 0;
      assert hay[1..][i - 1..i - 1 + |needle|] == hay[i..i + |needle|];
      assert OccursAt(hay[1..], needle, i - 1);
    }
    if i :| OccursAt(hay[1..], needle, i) {
      assert hay[1..][i..i + |needle|] == hay[i + 1..i + 1 + |needle|];
      assert OccursAt(hay, needle, i + 1);
    }
  }

  /** The text of a keyword is found, case-insensitively, in the title or in the body. */
  ghost predicate KeywordFound(pr: PullRequest, keyword: string) {
    exists i ::
      || OccursAt(Lower(pr.title), Lower(keyword), i)
      || OccursAt(Lower(pr.body.GetOr("")), Lower(keyword), i)
  }

  /** `design_keywords.any? { title.include?(k.downcase) || body.include?(k.downcase) }`. */
  function AnyKeywordIn(title: string, body: string, keywords: seq<string>): (r: bool)
    ensures r <==> exists k :: k in keywords && (Contains(title, Lower(k)) || Contains(body, Lower(k)))
  {
    if keywords == [] then false
    else Contains(title, Lower(keywords[0])) || Contains(body, Lower(keywords[0]))
         || AnyKeywordIn(title, body, keywords[1..])
  }

  /**
   * `is_design_review?`: false without keywords; otherwise true iff some
   * keyword, lower-cased, occurs in the lower-cased title or in the
   * lower-cased body (a missing body reads as "").
   */
  function IsDesignReview(pr: PullRequest, keywords: seq<string>): (r: bool)
    ensures keywords == [] ==> !r
    ensures r <==> exists k :: k in keywords && KeywordFound(pr, k)
  {
    if keywords == [] then false
    else AnyKeywordIn(Lower(pr.title), Lower(pr.body.GetOr("")), keywords)
  }

  // ---------------------------------------------------------------------------
  // Involvement (`pr_has_reviewer?`) and clock start (`get_review_request_start_time`)

  /** `event['event'] == 'review_requested' && event['requested_reviewer']['login'] == reviewer`. */
  predicate IsRequestFor(e: IssueEvent, reviewer: string) {
    e.event == "review_requested" && e.requestedReviewer == Some(reviewer)
  }

  ghost predicate HasRequestFor(events: seq<IssueEvent>, reviewer: string) {
    exists i :: 0 <= i < |events| && IsRequestFor(events[i], reviewer)
  }

  /** `events[i]` is the first request event, in list order, that names the reviewer. */
  ghost predicate IsFirstRequest(events: seq<IssueEvent>, reviewer: string, i: int) {
    && 0 <= i < |events| && IsRequestFor(events[i], reviewer)
    && forall j :: 0 <= j < i ==> !IsRequestFor(events[j], reviewer)
  }

  /** `events.select { review_requested for reviewer }`, in list order. */
  function RequestsFor(events: seq<IssueEvent>, reviewer: string): (r: seq<IssueEvent>)
    ensures |r| <= |events|
  {
    if events == [] then []
    else
      var init, last := events[..|events| - 1], events[|events| - 1];
      RequestsFor(init, reviewer) + if IsRequestFor(last, reviewer) then [last] else []
  }

  /**
   * The selection keeps exactly the request events naming the reviewer; it is
   * empty iff there is none, and otherwise starts with the first one.
   */
  lemma {:induction false} RequestsForSpec(events: seq<IssueEvent>, reviewer: string)
    ensures forall e :: e in RequestsFor(events, reviewer) <==> e in events && IsRequestFor(e, reviewer)
    ensures RequestsFor(events, reviewer) != [] <==> HasRequestFor(events, reviewer)
    ensures RequestsFor(events, reviewer) != [] ==>
      exists i :: IsFirstRequest(events, reviewer, i) && RequestsFor(events, reviewer)[0] == events[i]
  {
    if events != [] {
      var init, last := events[..|events| - 1], events[|events| - 1];
      assert events == init + [last];
      RequestsForSpec(init, reviewer);
      var rest := RequestsFor(init, reviewer);
      if rest == [] && IsRequestFor(last, reviewer) {
        assert IsFirstRequest(events, reviewer, |events| - 1);
      } else if rest != [] {
        var i :| IsFirstRequest(init, reviewer, i) && rest[0] == init[i];
        assert IsFirstRequest(events, reviewer, i);
      }
      if HasRequestFor(events, reviewer) && !IsRequestFor(last, reviewer) {
        var i :| 0 <= i < |events| && IsRequestFor(events[i], reviewer);
        assert IsRequestFor(init[i], reviewer);
      }
    }
  }

  /** `pr_has_reviewer?` of this script: the author is excluded, then a request event or a review by the reviewer decides. */
  function PrHasReviewer(pr: PullRequest, activity: Activity, reviewer: string): bool {
    if pr.author == reviewer then false
    else if RequestsFor(activity.events, reviewer) != [] then
      true
    else
      ReviewsBy(activity.reviews, reviewer) != []
  }

  /**
   * Never for the pull request's own author; otherwise iff a request event
   * names the reviewer or the reviewer submitted a review.
   */
  lemma PrHasReviewerSpec(pr: PullRequest, activity: Activity, reviewer: string)
    ensures pr.author == reviewer ==> !PrHasReviewer(pr, activity, reviewer)
    ensures pr.author != reviewer ==>
      (PrHasReviewer(pr, activity, reviewer) <==>
         HasRequestFor(activity.events, reviewer) || HasReviewBy(activity.reviews, reviewer))
  {
    RequestsForSpec(activity.events, reviewer);
    ReviewsBySpec(activity.reviews, reviewer);
  }

  /** `get_review_request_start_time`: the first request event naming the reviewer, else the creation time if reviewed. */
  function RequestStart(pr: PullRequest, activity: Activity, reviewer: string): Option<Timestamp> {
    var requested := RequestsFor(activity.events, reviewer);
    if requested != [] then Some(requested[0].createdAt)
    else if ReviewsBy(activity.reviews, reviewer) != [] then Some(pr.createdAt)
    else None
  }

  /**
   * The clock starts at the time of the first request event naming the
   * reviewer; failing that, at the pull request's creation time if the
   * reviewer reviewed it at all; otherwise it has no start.
   */
  lemma RequestStartSpec(pr: PullRequest, activity: Activity, reviewer: string)
    ensures HasRequestFor(activity.events, reviewer) ==>
      exists i :: IsFirstRequest(activity.events, reviewer, i)
        && RequestStart(pr, activity, reviewer) == Some(activity.events[i].createdAt)
    ensures !HasRequestFor(activity.events, reviewer) && HasReviewBy(activity.reviews, reviewer) ==>
      RequestStart(pr, activity, reviewer) == Some(pr.createdAt)
    ensures !HasRequestFor(activity.events, reviewer) && !HasReviewBy(activity.reviews, reviewer) ==>
      RequestStart(pr, activity, reviewer) == None
  {
    RequestsForSpec(activity.events, reviewer);
    ReviewsBySpec(activity.reviews, reviewer);
  }

  /** Events are listed oldest first. */
  ghost predicate Chronological(events: seq<IssueEvent>) {
    forall i, j :: 0 <= i < j < |events| ==> events[i].createdAt <= events[j].createdAt
  }

  /**
   * When the events are listed oldest first (as the events endpoint lists
   * them), the first matching request is also the earliest one.
   */
  lemma FirstRequestIsEarliest(events: seq<IssueEvent>, reviewer: string, i: int)
    requires Chronological(events) && IsFirstRequest(events, reviewer, i)
    ensures forall j :: 0 <= j < |events| && IsRequestFor(events[j], reviewer) ==>
      events[i].createdAt <= events[j].createdAt
  {
  }

  // ---------------------------------------------------------------------------
  // Delay of one pull request (`analyze_pr_review_timing`)

  /** `t` is the earliest `submitted_at` among the reviewer's reviews. */
  ghost predicate IsFirstReview(reviews: seq<Review>, reviewer: string, t: Timestamp) {
    && (exists i :: 0 <= i < |reviews| && reviews[i].reviewer == reviewer && reviews[i].submittedAt == t)
    && forall i :: 0 <= i < |reviews| && reviews[i].reviewer == reviewer ==> t <= reviews[i].submittedAt
  }

  /** `reviews.map { submitted_at }.min`. */
  function EarliestSubmitted(reviews: seq<Review>): Timestamp
    requires reviews != []
  {
    if |reviews| == 1 then reviews[0].submittedAt
    else
      var m := EarliestSubmitted(reviews[..|reviews| - 1]);
      var last := reviews[|reviews| - 1].submittedAt;
      if last < m then last else m
  }

  /** The minimum is one of the submission times and is at most every other. */
  lemma {:induction false} EarliestSubmittedSpec(reviews: seq<Review>)
    requires reviews != []
    ensures exists i :: 0 <= i < |reviews| && reviews[i].submittedAt == EarliestSubmitted(reviews)
    ensures forall i :: 0 <= i < |reviews| ==> EarliestSubmitted(reviews) <= reviews[i].submittedAt
  {
    if |reviews| > 1 {
      var init := reviews[..|reviews| - 1];
      EarliestSubmittedSpec(init);
      assert forall i :: 0 <= i < |init| ==> init[i] == reviews[i];
      if EarliestSubmitted(reviews) != reviews[|reviews| - 1].submittedAt {
        var i :| 0 <= i < |init| && init[i].submittedAt == EarliestSubmitted(init);
        assert reviews[i].submittedAt == EarliestSubmitted(reviews);
      }
    } else {
      assert reviews[0].submittedAt == EarliestSubmitted(reviews);
    }
  }

  /** How the delay is shown: "N時間後" or "N日後". */
  datatype DisplayUnit = InHours | InDays

  /** One `review_data` hash; the delays are in tenths of an hour and tenths of a day. */
  datatype ReviewTiming = ReviewTiming(
    prNumber: int,
    prTitle: string,
    requestedAt: Timestamp,
    firstReviewAt: Timestamp,
    delayHoursTenths: int,
    delayDaysTenths: int,
    onTime: bool,
    display: DisplayUnit,
    targetDays: nat)

  /**
   * `analyze_pr_review_timing`: no timing without a clock start or without a
   * review by the reviewer; otherwise the delay from the clock start to the
   * reviewer's earliest review, in hours rounded to one decimal, then in days
   * (that rounded hour value over 24) rounded to one decimal, on time iff the
   * rounded days are at most the target. `TimingSpec` states what it computes.
   */
  function AnalyzePrReviewTiming(pr: PullRequest, activity: Activity, reviewer: string, targetDays: nat): Option<ReviewTiming> {
    match RequestStart(pr, activity, reviewer)
    case None => None
    case Some(start) =>
      var mine := ReviewsBy(activity.reviews, reviewer);
      if mine == [] then None
      else
        var first := EarliestSubmitted(mine);
        var hours := RoundDiv(first - start, 360);
        var days := RoundDiv(hours, 24);
        Some(ReviewTiming(pr.number, pr.title, start, first, hours, days,
                          days <= 10 * targetDays, if hours < 240 then InHours else InDays, targetDays))
  }

  /** The timing exists iff the clock has a start and the reviewer reviewed; its fields are the rounded delays from that start to the earliest review. */
  lemma TimingSpec(pr: PullRequest, activity: Activity, reviewer: string, targetDays: nat)
    ensures var r := AnalyzePrReviewTiming(pr, activity, reviewer, targetDays);
      r.None? <==> RequestStart(pr, activity, reviewer).None? || !HasReviewBy(activity.reviews, reviewer)
    ensures var r := AnalyzePrReviewTiming(pr, activity, reviewer, targetDays);
      r.Some? ==>
      var t := r.value;
      && t.prNumber == pr.number && t.prTitle == pr.title && t.targetDays == targetDays
      && RequestStart(pr, activity, reviewer) == Some(t.requestedAt)
      && IsFirstReview(activity.reviews, reviewer, t.firstReviewAt)
      && IsNearest(t.delayHoursTenths, t.firstReviewAt - t.requestedAt, 360)
      && IsNearest(t.delayDaysTenths, t.delayHoursTenths, 24)
      && (t.onTime <==> t.delayDaysTenths <= 10 * targetDays)
      && (t.display == InHours <==> t.delayHoursTenths < 240)
  {
    var mine := ReviewsBy(activity.reviews, reviewer);
    ReviewsBySpec(activity.reviews, reviewer);
    if RequestStart(pr, activity, reviewer).Some? && mine != [] {
      var first := EarliestSubmitted(mine);
      EarliestSubmittedSpec(mine);
      assert IsFirstReview(activity.reviews, reviewer, first) by {
        var k :| 0 <= k < |mine| && mine[k].submittedAt == first;
        assert mine[k] in mine;
        forall i | 0 <= i < |activity.reviews| && activity.reviews[i].reviewer == reviewer
          ensures first <= activity.reviews[i].submittedAt
        {
          assert activity.reviews[i] in mine;
        }
      }
    }
  }

  /** A pull request yields a timing exactly when the reviewer reviewed it: the clock always has a start then. */
  lemma TimingIffReviewed(pr: PullRequest, activity: Activity, reviewer: string, targetDays: nat)
    ensures AnalyzePrReviewTiming(pr, activity, reviewer, targetDays).Some? <==> HasReviewBy(activity.reviews, reviewer)
  {
    TimingSpec(pr, activity, reviewer, targetDays);
    RequestStartSpec(pr, activity, reviewer);
  }

  /** A review at or before the clock start (a negative delay) is on time and shown in hours. */
  lemma NegativeDelayIsOnTime(pr: PullRequest, activity: Activity, reviewer: string, targetDays: nat)
    requires AnalyzePrReviewTiming(pr, activity, reviewer, targetDays).Some?
    requires var t := AnalyzePrReviewTiming(pr, activity, reviewer, targetDays).value; t.firstReviewAt <= t.requestedAt
    ensures var t := AnalyzePrReviewTiming(pr, activity, reviewer, targetDays).value; t.onTime && t.display == InHours
  {
    var t := AnalyzePrReviewTiming(pr, activity, reviewer, targetDays).value;
    TimingSpec(pr, activity, reviewer, targetDays);
    assert t.delayHoursTenths <= 0 by {
      NearestOfNonPositive(t.delayHoursTenths, t.firstReviewAt - t.requestedAt, 360);
    }
    NearestOfNonPositive(t.delayDaysTenths, t.delayHoursTenths, 24);
  }

  lemma NearestOfNonPositive(r: int, n: int, d: int)
    requires d > 0 && n <= 0 && IsNearest(r, n, d)
    ensures r <= 0
  {
    if r >= 1 {
      MulMonotone(1, r, d);
    }
  }

  // ---------------------------------------------------------------------------
  // Partition (`analyze_review_speed`) and aggregation (`analyze_normal_reviews`,
  // `analyze_design_reviews`, `display_summary`)

  datatype Category = Normal | Design

  /** Normal review is due the same day, design review within three days. */
  function DeadlineDays(c: Category): nat {
    match c
    case Normal => 1
    case Design => 3
  }

  /** The list a pull request is pushed to, if any. */
  function CategoryOf(pr: PullRequest, activity: map<int, Activity>, reviewer: string, keywords: seq<string>): Option<Category> {
    if !PrHasReviewer(pr, ActivityOf(activity, pr.number), reviewer) then None
    else if IsDesignReview(pr, keywords) then Some(Design)
    else Some(Normal)
  }

  /** The pull requests of category `c`, in listing order. */
  function PrsIn(prs: seq<PullRequest>, activity: map<int, Activity>, reviewer: string, keywords: seq<string>, c: Category): (r: seq<PullRequest>)
    ensures |r| <= |prs|
  {
    if prs == [] then []
    else
      var init, last := prs[..|prs| - 1], prs[|prs| - 1];
      PrsIn(init, activity, reviewer, keywords, c)
        + (if CategoryOf(last, activity, reviewer, keywords) == Some(c) then [last] else [])
  }

  /** A category's list holds exactly the listed pull requests of that category. */
  lemma {:induction false} PrsInMembers(prs: seq<PullRequest>, activity: map<int, Activity>, reviewer: string, keywords: seq<string>, c: Category)
    ensures forall pr :: pr in PrsIn(prs, activity, reviewer, keywords, c) <==>
      pr in prs && CategoryOf(pr, activity, reviewer, keywords) == Some(c)
  {
    if prs != [] {
      var init, last := prs[..|prs| - 1], prs[|prs| - 1];
      assert prs == init + [last];
      PrsInMembers(init, activity, reviewer, keywords, c);
    }
  }

  /** Without design keywords no pull request is a design review, so the design list stays empty. */
  lemma {:induction false} NoKeywordsNoDesign(prs: seq<PullRequest>, activity: map<int, Activity>, reviewer: string)
    ensures PrsIn(prs, activity, reviewer, [], Design) == []
  {
    if prs != [] {
      NoKeywordsNoDesign(prs[..|prs| - 1], activity, reviewer);
    }
  }

  /**
   * Each occurrence of an involved pull request lands in exactly one of the
   * two lists, and a pull request that does not involve the reviewer in
   * neither.
   */
  lemma {:induction false} PartitionIsExact(prs: seq<PullRequest>, activity: map<int, Activity>, reviewer: string, keywords: seq<string>)
    ensures forall pr ::
      multiset(PrsIn(prs, activity, reviewer, keywords, Normal))[pr]
        + multiset(PrsIn(prs, activity, reviewer, keywords, Design))[pr]
      == if PrHasReviewer(pr, ActivityOf(activity, pr.number), reviewer) then multiset(prs)[pr] else 0
  {
    if prs != [] {
      var init, last := prs[..|prs| - 1], prs[|prs| - 1];
      assert prs == init + [last];
      PartitionIsExact(init, activity, reviewer, keywords);
      var normal, design := PrsIn(init, activity, reviewer, keywords, Normal), PrsIn(init, activity, reviewer, keywords, Design);
      var cat := CategoryOf(last, activity, reviewer, keywords);
      assert multiset(PrsIn(prs, activity, reviewer, keywords, Normal))
        == multiset(normal) + if cat == Some(Normal) then multiset{last} else multiset{};
      assert multiset(PrsIn(prs, activity, reviewer, keywords, Design))
        == multiset(design) + if cat == Some(Design) then multiset{last} else multiset{};
      assert multiset(prs) == multiset(init) + multiset{last};
    }
  }

  lemma PrsInStep(prs: seq<PullRequest>, i: nat, activity: map<int, Activity>, reviewer: string, keywords: seq<string>, c: Category)
    requires i < |prs|
    ensures PrsIn(prs[..i + 1], activity, reviewer, keywords, c)
      == PrsIn(prs[..i], activity, reviewer, keywords, c)
        + if CategoryOf(prs[i], activity, reviewer, keywords) == Some(c) then [prs[i]] else []
  {
    assert prs[..i + 1][..i] == prs[..i];
  }

  /** The loop of `analyze_review_speed` that pushes each involved pull request to `design_prs` or `normal_prs`. */
  method PartitionPrs(prs: seq<PullRequest>, activity: map<int, Activity>, reviewer: string, keywords: seq<string>)
    returns (normalPrs: seq<PullRequest>, designPrs: seq<PullRequest>)
    ensures normalPrs == PrsIn(prs, activity, reviewer, keywords, Normal)
    ensures designPrs == PrsIn(prs, activity, reviewer, keywords, Design)
  {
    normalPrs, designPrs := [], [];
    for i := 0 to |prs|
      invariant normalPrs == PrsIn(prs[..i], activity, reviewer, keywords, Normal)
      invariant designPrs == PrsIn(prs[..i], activity, reviewer, keywords, Design)
    {
      var pr := prs[i];
      PrsInStep(prs, i, activity, reviewer, keywords, Normal);
      PrsInStep(prs, i, activity, reviewer, keywords, Design);
      if PrHasReviewer(pr, ActivityOf(activity, pr.number), reviewer) {
        if IsDesignReview(pr, keywords) {
          designPrs := designPrs + [pr];
        } else {
          normalPrs := normalPrs + [pr];
        }
      }
    }
    assert prs[..|prs|] == prs;
  }

  /** The timing of one pull request, as a list of zero or one items. */
  function TimingOf(pr: PullRequest, activity: map<int, Activity>, reviewer: string, targetDays: nat): seq<ReviewTiming> {
    var t := AnalyzePrReviewTiming(pr, ActivityOf(activity, pr.number), reviewer, targetDays);
    if t.Some? then [t.value] else []
  }

  /** The `review_details` of a category: one timing per pull request that has one, in order. */
  function Timings(prs: seq<PullRequest>, activity: map<int, Activity>, reviewer: string, targetDays: nat): (r: seq<ReviewTiming>)
    ensures |r| <= |prs|
  {
    if prs == [] then []
    else
      Timings(prs[..|prs| - 1], activity, reviewer, targetDays)
        + TimingOf(prs[|prs| - 1], activity, reviewer, targetDays)
  }

  /**
   * Every entry of the details is the timing of one of the listed pull
   * requests, and every listed pull request that has a timing contributes it.
   */
  lemma {:induction false} TimingsMembers(prs: seq<PullRequest>, activity: map<int, Activity>, reviewer: string, targetDays: nat)
    ensures forall t :: t in Timings(prs, activity, reviewer, targetDays) <==>
      exists pr :: pr in prs && TimingOf(pr, activity, reviewer, targetDays) == [t]
  {
    if prs != [] {
      var init, last := prs[..|prs| - 1], prs[|prs| - 1];
      assert prs == init + [last];
      TimingsMembers(init, activity, reviewer, targetDays);
      forall t | t in Timings(prs, activity, reviewer, targetDays)
        ensures exists pr :: pr in prs && TimingOf(pr, activity, reviewer, targetDays) == [t]
      {
        if t !in Timings(init, activity, reviewer, targetDays) {
          assert TimingOf(last, activity, reviewer, targetDays) == [t];
        }
      }
    }
  }

  /** The pull requests the reviewer reviewed. */
  function Reviewed(prs: seq<PullRequest>, activity: map<int, Activity>, reviewer: string): seq<PullRequest> {
    if prs == [] then []
    else
      var init, last := prs[..|prs| - 1], prs[|prs| - 1];
      Reviewed(init, activity, reviewer)
        + if ReviewsBy(ActivityOf(activity, last.number).reviews, reviewer) != [] then [last] else []
  }

  /**
   * `total_count` counts exactly the reviewed pull requests: one that was
   * requested but never reviewed has no timing and does not count, not even
   * as late.
   */
  lemma {:induction false} TimingsCountReviewed(prs: seq<PullRequest>, activity: map<int, Activity>, reviewer: string, targetDays: nat)
    ensures |Timings(prs, activity, reviewer, targetDays)| == |Reviewed(prs, activity, reviewer)|
  {
    if prs != [] {
      var last := prs[|prs| - 1];
      TimingsCountReviewed(prs[..|prs| - 1], activity, reviewer, targetDays);
      TimingIffReviewed(last, ActivityOf(activity, last.number), reviewer, targetDays);
    }
  }

  /** One more pull request extends the timings by its own timing, if it has one, and the on-time count by its verdict. */
  lemma TimingsStep(prs: seq<PullRequest>, i: nat, activity: map<int, Activity>, reviewer: string, targetDays: nat,
                    t: Option<ReviewTiming>)
    requires i < |prs|
    requires t == AnalyzePrReviewTiming(prs[i], ActivityOf(activity, prs[i].number), reviewer, targetDays)
    ensures Timings(prs[..i + 1], activity, reviewer, targetDays)
      == Timings(prs[..i], activity, reviewer, targetDays) + if t.Some? then [t.value] else []
    ensures OnTimeIn(prs[..i + 1], activity, reviewer, targetDays)
      == OnTimeIn(prs[..i], activity, reviewer, targetDays) + if t.Some? && t.value.onTime then 1 else 0
  {
    assert prs[..i + 1][..i] == prs[..i];
  }

  function OnTimeCount(details: seq<ReviewTiming>): (n: nat)
    ensures n <= |details|
  {
    if details == [] then 0
    else OnTimeCount(details[..|details| - 1]) + if details[|details| - 1].onTime then 1 else 0
  }

  /** The number of pull requests whose timing is on time. */
  function OnTimeIn(prs: seq<PullRequest>, activity: map<int, Activity>, reviewer: string, targetDays: nat): nat {
    if prs == [] then 0
    else
      var t := AnalyzePrReviewTiming(prs[|prs| - 1], ActivityOf(activity, prs[|prs| - 1].number), reviewer, targetDays);
      OnTimeIn(prs[..|prs| - 1], activity, reviewer, targetDays) + if t.Some? && t.value.onTime then 1 else 0
  }

  lemma {:induction false} OnTimeInCounts(prs: seq<PullRequest>, activity: map<int, Activity>, reviewer: string, targetDays: nat)
    ensures OnTimeIn(prs, activity, reviewer, targetDays) == OnTimeCount(Timings(prs, activity, reviewer, targetDays))
  {
    if prs != [] {
      var init := prs[..|prs| - 1];
      OnTimeInCounts(init, activity, reviewer, targetDays);
      var t := AnalyzePrReviewTiming(prs[|prs| - 1], ActivityOf(activity, prs[|prs| - 1].number), reviewer, targetDays);
      if t.Some? {
        assert Timings(prs, activity, reviewer, targetDays) == Timings(init, activity, reviewer, targetDays) + [t.value];
        OnTimeCountSnoc(Timings(init, activity, reviewer, targetDays), t.value);
      } else {
        assert Timings(prs, activity, reviewer, targetDays) == Timings(init, activity, reviewer, targetDays);
      }
    }
  }

  lemma OnTimeCountSnoc(details: seq<ReviewTiming>, t: ReviewTiming)
    ensures OnTimeCount(details + [t]) == OnTimeCount(details) + if t.onTime then 1 else 0
  {
    assert (details + [t])[..|details|] == details;
  }

  /** The target: at least 70.0% on time. */
  const TargetRateTenths := 700

  /** The summary of one category. `rateTenths` is the on-time rate in tenths of a percent. */
  datatype CategoryResult = CategoryResult(
    category: Category,
    totalCount: nat,
    onTimeCount: nat,
    rateTenths: int,
    targetMet: bool,
    details: seq<ReviewTiming>)

  /** How the fields of a category result relate to its details. */
  ghost predicate WellFormed(r: CategoryResult) {
    && r.totalCount == |r.details|
    && r.onTimeCount == OnTimeCount(r.details)
    && (r.totalCount == 0 ==> r.rateTenths == 0)
    && (r.totalCount > 0 ==> IsNearest(r.rateTenths, r.onTimeCount * 1000, r.totalCount))
    && (r.targetMet <==> r.rateTenths >= TargetRateTenths)
  }

  /** The rate is 0 for an empty category and otherwise lies in [0, 100.0]; the on-time count is bounded by the total. */
  lemma CategoryBounds(r: CategoryResult)
    requires WellFormed(r)
    ensures r.onTimeCount <= r.totalCount
    ensures 0 <= r.rateTenths <= 1000
  {
    if r.totalCount > 0 {
      PerMilleBounds(r.onTimeCount, r.totalCount, r.rateTenths);
    }
  }

  /**
   * The loop of `analyze_normal_reviews` and `analyze_design_reviews`: the
   * timing of every pull request that has one, with the running counts.
   */
  method CollectTimings(prs: seq<PullRequest>, activity: map<int, Activity>, reviewer: string, targetDays: nat)
    returns (totalCount: nat, onTimeCount: nat, details: seq<ReviewTiming>)
    ensures details == Timings(prs, activity, reviewer, targetDays)
    ensures totalCount == |details| && onTimeCount == OnTimeCount(details)
  {
    totalCount, onTimeCount, details := 0, 0, [];
    for i := 0 to |prs|
      invariant details == Timings(prs[..i], activity, reviewer, targetDays)
      invariant totalCount == |details|
      invariant onTimeCount == OnTimeIn(prs[..i], activity, reviewer, targetDays)
    {
      var pr := prs[i];
      var reviewData := AnalyzePrReviewTiming(pr, ActivityOf(activity, pr.number), reviewer, targetDays);
      TimingsStep(prs, i, activity, reviewer, targetDays, reviewData);
      if reviewData.Some? {
        var timing := reviewData.value;
        totalCount := totalCount + 1;
        if timing.onTime {
          onTimeCount := onTimeCount + 1;
        }
        details := details + [timing];
      }
    }
    assert prs[..|prs|] == prs;
    OnTimeInCounts(prs, activity, reviewer, targetDays);
  }

  /**
   * `analyze_normal_reviews` (deadline 1 day) and `analyze_design_reviews`
   * (deadline 3 days), which differ only in the deadline and the label.
   */
  method AnalyzeCategory(category: Category, prs: seq<PullRequest>, activity: map<int, Activity>, reviewer: string)
    returns (result: CategoryResult)
    ensures result.category == category
    ensures result.details == Timings(prs, activity, reviewer, DeadlineDays(category))
    ensures WellFormed(result)
    ensures result.totalCount <= |prs|
  {
    var totalCount, onTimeCount, details := CollectTimings(prs, activity, reviewer, DeadlineDays(category));
    var rate := if totalCount > 0 then RoundDiv(onTimeCount * 1000, totalCount) else 0;
    result := CategoryResult(category, totalCount, onTimeCount, rate, rate >= TargetRateTenths, details);
  }

  /** `display_summary`'s overall verdict: both categories reach 70.0%. */
  function OverallSuccess(normal: CategoryResult, design: CategoryResult): (ok: bool)
    ensures WellFormed(normal) && WellFormed(design) ==>
      (ok <==> normal.rateTenths >= 700 && design.rateTenths >= 700)
  {
    normal.targetMet && design.targetMet
  }

  /** The result of a run: the window's pull requests, both categories and the verdict. */
  datatype SpeedReport = SpeedReport(
    prs: seq<PullRequest>,
    normal: CategoryResult,
    design: CategoryResult,
    overallSuccess: bool)

  /**
   * `analyze_review_speed`: nothing is fetched with an invalid token (the
   * script returns false); otherwise the window is listed by creation time,
   * the involved pull requests are split by keyword, and each category is
   * analysed against its own deadline.
   */
  method AnalyzeReviewSpeed(userResponse: Json, pages: seq<seq<PullRequest>>, activity: map<int, Activity>,
                            reviewer: string, start: Timestamp, end: Timestamp, keywords: seq<string>)
    returns (report: Option<SpeedReport>, pagesRequested: nat)
    ensures !ValidateToken(userResponse) ==> report == None && pagesRequested == 0
    ensures ValidateToken(userResponse) ==> report.Some? && pagesRequested == FirstStop(pages, Created, start)
    ensures report.Some? ==>
      var rep := report.value;
      && rep.prs == Collected(pages, Created, start, end, pagesRequested)
      && rep.normal.category == Normal && WellFormed(rep.normal)
      && rep.normal.details == Timings(PrsIn(rep.prs, activity, reviewer, keywords, Normal), activity, reviewer, 1)
      && rep.design.category == Design && WellFormed(rep.design)
      && rep.design.details == Timings(PrsIn(rep.prs, activity, reviewer, keywords, Design), activity, reviewer, 3)
      && (rep.overallSuccess <==> rep.normal.targetMet && rep.design.targetMet)
  {
    if !ValidateToken(userResponse) {
      return None, 0;
    }
    var prs;
    prs, pagesRequested := FetchPrsInPeriod(pages, Created, start, end);
    FirstStopCharacterized(pages, Created, start, pagesRequested);
    var normalPrs, designPrs := PartitionPrs(prs, activity, reviewer, keywords);
    var normal := AnalyzeCategory(Normal, normalPrs, activity, reviewer);
    var design := AnalyzeCategory(Design, designPrs, activity, reviewer);
    report := Some(SpeedReport(prs, normal, design, OverallSuccess(normal, design)));
  }

  /**
   * A run without design keywords never succeeds overall: the design
   * category is empty, so its rate is 0 and its target is missed.
   */
  lemma NoKeywordsNeverSucceeds(rep: SpeedReport, activity: map<int, Activity>, reviewer: string)
    requires WellFormed(rep.design)
    requires rep.design.details == Timings(PrsIn(rep.prs, activity, reviewer, [], Design), activity, reviewer, 3)
    requires rep.overallSuccess <==> rep.normal.targetMet && rep.design.targetMet
    ensures rep.design.totalCount == 0 && rep.design.rateTenths == 0
    ensures !rep.design.targetMet && !rep.overallSuccess
  {
    NoKeywordsNoDesign(rep.prs, activity, reviewer);
  }
}
