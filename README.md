# fqqk_script review metrics and Slack reactions, modelled in Dafny

This project models the decision logic of three Ruby scripts and proves properties of it:

- **`github/pr_review_speed_analyzer.rb`**: measures how quickly a reviewer reviews pull requests.
  - It lists the pull requests created in a date window, page by page.
  - It keeps the ones that involve the reviewer and splits them into normal and design reviews by keyword.
  - It starts the review clock at the first review request, or at the pull request's creation.
  - It rounds the delay to the reviewer's earliest review to tenths of an hour and of a day.
  - It compares the delay with a 1-day or 3-day deadline, and checks each category's on-time rate against a 70% target.
- **`github/pr_review_comment_collector.rb`**: lists the pull requests updated in a window with the same paginator. For those the reviewer reviewed, it counts the reviewer's non-blank line comments and non-blank, non-approval reviews.
- **`slack_reactions/sh_script.rb`**: tallies, per Slack user, the reactions they left and the emoji they used, in a nested hash updated in place. It then picks the three users who reacted most and each one's favourite emoji.

Every network response is given data:
- a page listing is `seq<seq<PullRequest>>`;
- each pull request's events, reviews and line comments form one `Activity`;
- the Slack history is a `seq<Message>`.

A failed request returns `[]` in the scripts, so it is an empty sequence here. Timestamps are integer seconds, and `Float#round(1)` becomes integer tenths rounded half away from zero (`Rounding.RoundDiv`).

Modules:
- `Wrappers`: `Option` and `Result`.
- `Rounding`: rounding to the nearest integer.
- `GitHub`: the REST payloads and `validate_token`.
- `Pagination`: `fetch_prs_in_period`, shared by both GitHub scripts through `SortKey` (`Created` | `Updated`).
- `CliOptions`: `validate_options`, which is identical in both GitHub scripts.
- `ReviewSpeed`.
- `ReviewComments`.
- `MapSum`: counters with a default of 0, and their sum.
- `SlackReactions`: the tally is the class `ReactionTally`, whose `entries` map is reassigned in place by its methods.

The review clock starts at the first matching request event in the order the events endpoint lists them (`review_requested_events.first`). That need not be the earliest request; `ReviewSpeed.FirstRequestIsEarliest` shows the two agree when events are listed oldest first.

Three consequences of the code are worth knowing:
- A pull request on which the reviewer was requested but never reviewed counts as involved, yet it has no timing. It therefore counts neither as on time nor as late (`ReviewSpeed.TimingsCountReviewed`).
- The early stop of the paginator is guaranteed to lose nothing when the listing is really in descending order and no page request failed (`Pagination.EarlyStopIsComplete`).
- With no design keywords the design list is always empty, so its rate is 0, its target is missed and the overall verdict is always false (`ReviewSpeed.NoKeywordsNoDesign`, `ReviewSpeed.NoKeywordsNeverSucceeds`).

## Model

| member | source | states |
|---|---|---|
| Rounding.RoundDiv | github/pr_review_speed_analyzer.rb:170-171 | the result is the integer nearest to n/d, a tie going away from zero; a non-negative quotient rounds to a non-negative value and a non-positive one to a non-positive value |
| Rounding.NearestUnique | github/pr_review_speed_analyzer.rb:170-171 | the rounding rule determines the rounded value: two values that both satisfy it are equal |
| Rounding.PerMilleBounds | github/pr_review_speed_analyzer.rb:96 | a part-over-whole rate rounded in tenths of a percent lies in [0, 1000] |
| GitHub.ReviewsBy | github/pr_review_speed_analyzer.rb:162 | the reviewer's reviews are a selection: no more of them than reviews |
| GitHub.ReviewsBySpec | github/pr_review_speed_analyzer.rb:162 | `ReviewsBy`, the selection, keeps exactly the reviews written by the reviewer, and is empty iff the reviewer wrote none |
| GitHub.ValidateToken | github/pr_review_comment_collector.rb:64-70 | the token is valid iff the `/user` response is a non-empty object with the key "login"; any other JSON value, including the `[]` of a failed request, is invalid |
| CliOptions.MissingFieldsOf | github/pr_review_speed_analyzer.rb:413-414 | a field is listed iff that option is absent; no field is listed twice; the list is empty iff every required option is present |
| CliOptions.ValidateOptions | github/pr_review_comment_collector.rb:228-242 | missing options are reported iff some option is absent, and then exactly the absent ones are listed. The date error is given iff all options are present and start > end. The options are accepted iff all are present and start <= end, so equal dates pass; the accepted config carries the given values |
| Pagination.InWindowOnlyMembers | github/pr_review_speed_analyzer.rb:280-283 | `InWindowOnly`, the page filter, keeps exactly the page's pull requests whose timestamp lies in [start, end] |
| Pagination.FirstStopStops | github/pr_review_speed_analyzer.rb:269-291 | the page loop ends, at the latest at the first page past the listing, and the page it ends at is empty or has its last item older than start |
| Pagination.FirstStopIsFirst | github/pr_review_speed_analyzer.rb:278-290 | no page before the first stop is empty or ends with an item older than start |
| Pagination.FirstStopCharacterized | github/pr_review_speed_analyzer.rb:269-291 | a page number is the first stop iff it stops the loop and no earlier page does |
| Pagination.FetchPrsInPeriod | github/pr_review_speed_analyzer.rb:264-294 | the loop requests pages 1..n, where n is the first page that is empty or ends with an item older than start (none after it); the result is the in-order concatenation of pages 1..n, each filtered to the window |
| Pagination.CollectedInWindow | github/pr_review_comment_collector.rb:91-96 | every returned pull request has start <= timestamp <= end |
| Pagination.CollectedHasFetched | github/pr_review_comment_collector.rb:96 | every in-window pull request on a fetched page is returned |
| Pagination.EarlyStopIsComplete | github/pr_review_speed_analyzer.rb:287-288 | if every later page is no newer than every earlier one and no page is empty, then every in-window pull request on any page is returned despite the early stop |
| ReviewSpeed.LowerSpec | github/pr_review_speed_analyzer.rb:231-235 | `Lower` (`downcase`) keeps the length, turns every capital letter A-Z into its small letter, keeps every other character, and leaves no capital letter |
| ReviewSpeed.Contains | github/pr_review_speed_analyzer.rb:235 | `include?` is true iff the needle occurs at some position of the haystack |
| ReviewSpeed.AnyKeywordIn | github/pr_review_speed_analyzer.rb:234-236 | true iff some keyword, lower-cased, is contained in the title or in the body |
| ReviewSpeed.IsDesignReview | github/pr_review_speed_analyzer.rb:228-237 | false for an empty keyword list; otherwise true iff some lower-cased keyword occurs in the lower-cased title or in the lower-cased body, a missing body reading as "" |
| ReviewSpeed.RequestsFor | github/pr_review_speed_analyzer.rb:202-206 | the matching request events are a selection: no more of them than events |
| ReviewSpeed.RequestsForSpec | github/pr_review_speed_analyzer.rb:202-206 | `RequestsFor`, the selection, holds exactly the `review_requested` events naming the reviewer; it is empty iff there is none; its first element is the first such event in list order |
| ReviewSpeed.PrHasReviewerSpec | github/pr_review_speed_analyzer.rb:297-318 | `PrHasReviewer` is false whenever the reviewer is the author, whatever events or reviews exist; otherwise true iff a request event names the reviewer or the reviewer submitted a review |
| ReviewSpeed.RequestStartSpec | github/pr_review_speed_analyzer.rb:197-225 | by `RequestStart`, the clock starts at the first matching request event in list order; failing that, at the pull request's creation time if the reviewer reviewed it; otherwise it has no start |
| ReviewSpeed.FirstRequestIsEarliest | github/pr_review_speed_analyzer.rb:208-210 | when events are listed oldest first, the first matching request is no later than any other matching request |
| ReviewSpeed.EarliestSubmittedSpec | github/pr_review_speed_analyzer.rb:167 | `EarliestSubmitted`, the minimum, is the submission time of one of the reviews and is at most every other |
| ReviewSpeed.TimingSpec | github/pr_review_speed_analyzer.rb:155-194 | `AnalyzePrReviewTiming` gives no timing iff there is no clock start or no review by the reviewer. Otherwise the record carries the pull request's number and title and the target, and the clock start. It holds the earliest review by the reviewer, the delay in hours rounded to tenths, and the days as hours over 24 rounded to tenths. It is on time iff days <= target, and shown in hours iff hours < 24 |
| ReviewSpeed.TimingIffReviewed | github/pr_review_speed_analyzer.rb:157-164 | a pull request has a timing exactly when the reviewer reviewed it |
| ReviewSpeed.NegativeDelayIsOnTime | github/pr_review_speed_analyzer.rb:170-181 | a review at or before the clock start is on time and shown in hours |
| ReviewSpeed.PrsInMembers | github/pr_review_speed_analyzer.rb:44-53 | a category's list holds exactly the listed pull requests that involve the reviewer and fall in that category |
| ReviewSpeed.NoKeywordsNoDesign | github/pr_review_speed_analyzer.rb:228-229 | with no design keywords the design list is empty, whatever the listing |
| ReviewSpeed.PartitionIsExact | github/pr_review_speed_analyzer.rb:44-53 | each occurrence of an involved pull request lands in exactly one of the two lists; an uninvolved one lands in neither |
| ReviewSpeed.PartitionPrs | github/pr_review_speed_analyzer.rb:41-53 | the loop's two lists are the design and normal selections of the listing, in order |
| ReviewSpeed.Timings | github/pr_review_speed_analyzer.rb:82-94 | a category's details have no more entries than the category has pull requests |
| ReviewSpeed.TimingsMembers | github/pr_review_speed_analyzer.rb:82-94 | an entry is in the details iff it is the timing of one of the category's pull requests |
| ReviewSpeed.TimingsCountReviewed | github/pr_review_speed_analyzer.rb:82-94 | `total_count` equals the number of pull requests the reviewer reviewed: one requested but never reviewed does not count |
| ReviewSpeed.OnTimeInCounts | github/pr_review_speed_analyzer.rb:86-88 | the number of pull requests with an on-time timing equals the number of on-time entries in the details |
| ReviewSpeed.CategoryBounds | github/pr_review_speed_analyzer.rb:96-97 | 0 <= on-time count <= total count, and the rate lies in [0, 100.0] |
| ReviewSpeed.CollectTimings | github/pr_review_speed_analyzer.rb:78-94 | the loop's details are every available timing in order; `total_count` is their number and `on_time_count` the number on time |
| ReviewSpeed.AnalyzeCategory | github/pr_review_speed_analyzer.rb:75-112 | the deadline is 1 day for normal and 3 days for design. The rate is 0 for an empty category and otherwise on-time/total rounded to tenths of a percent. The target is met iff rate >= 70.0, and total <= number of pull requests |
| ReviewSpeed.OverallSuccess | github/pr_review_speed_analyzer.rb:253 | for well-formed results, the overall verdict holds iff both rates are at least 70.0% |
| ReviewSpeed.NoKeywordsNeverSucceeds | github/pr_review_speed_analyzer.rb:253 | for a report of a run without design keywords, the design category has no entries and rate 0, misses its target, and the overall verdict is false |
| ReviewSpeed.AnalyzeReviewSpeed | github/pr_review_speed_analyzer.rb:22-70 | an invalid token gives no result and requests no page. Otherwise the window is listed by creation time and chosen pulls are split. Normal pulls are analysed against 1 day and design pulls against 3 days, and the verdict joins both targets |
| ReviewComments.Strip | github/pr_review_comment_collector.rb:128 | `strip` is empty iff every character is NUL, tab, line feed, vertical tab, form feed, carriage return or space; otherwise it starts and ends with another character |
| ReviewComments.CountReviewComments | github/pr_review_comment_collector.rb:119-147 | the count is the reviewer's non-blank line comments plus the reviewer's non-blank reviews that are not approvals, and at most \|comments\| + \|reviews\| |
| ReviewComments.CommentCount | github/pr_review_comment_collector.rb:125-132 | the number of counted line comments is at most the number of line comments |
| ReviewComments.ReviewCommentCount | github/pr_review_comment_collector.rb:137-144 | the number of counted reviews is at most the number of reviews |
| ReviewComments.CommentCountConcat | github/pr_review_comment_collector.rb:125-132 | the line-comment count is additive over concatenation |
| ReviewComments.ReviewCommentCountConcat | github/pr_review_comment_collector.rb:137-144 | the review count is additive over concatenation |
| ReviewComments.OthersCommentsIgnored | github/pr_review_comment_collector.rb:126 | a line comment by another user, anywhere in the list, never changes the count |
| ReviewComments.OthersReviewsIgnored | github/pr_review_comment_collector.rb:138 | a review by another user, anywhere in the list, never changes the count |
| ReviewComments.PrHasReviewerSpec | github/pr_review_comment_collector.rb:108-116 | `PrHasReviewer` is false when the reviewer is the author; otherwise true iff the reviewer submitted a review (request events play no part) |
| ReviewComments.TallyInvolved | github/pr_review_comment_collector.rb:43-52 | `pr_count` is the number of involved pull requests and `total_comments` the sum of their counts |
| ReviewComments.CollectReviewComments | github/pr_review_comment_collector.rb:22-61 | an invalid token returns 0 and requests no page; otherwise the window is listed by update time and the involved pull requests are counted and their comments summed |
| ReviewComments.AverageHundredths | github/pr_review_comment_collector.rb:58 | the printed average is 0 with no pull request, otherwise total/count rounded to hundredths |
| MapSum.Increment | slack_reactions/sh_script.rb:65 | `h[k] += 1` on a `Hash.new(0)` adds the key if missing, raises its counter by one and changes no other counter |
| MapSum.SumIncrement | slack_reactions/sh_script.rb:65 | one increment raises the sum of the counters by exactly one |
| SlackReactions.Apply | slack_reactions/sh_script.rb:62-66 | one step of the innermost loop adds the user if new; it raises their total by one and their counter for the emoji by one, and leaves every other user unchanged |
| SlackReactions.ApplyAllConcat | slack_reactions/sh_script.rb:57-69 | `ApplyAll`, the in-order application of a run of increments: applying two runs of increments one after the other is applying their concatenation |
| SlackReactions.ReactionTally.constructor | slack_reactions/sh_script.rb:94 | the tally starts empty and consistent |
| SlackReactions.ReactionTally.Tally | slack_reactions/sh_script.rb:63-65 | the two in-place updates of one step leave the hash as one `Apply` of that user and emoji |
| SlackReactions.ReactionTally.CountReaction | slack_reactions/sh_script.rb:62-66 | the users loop applies one increment per listed user, in order, under the reaction's name or `unknown_reaction` |
| SlackReactions.ReactionTally.CountMessage | slack_reactions/sh_script.rb:58-68 | a message without `reactions` changes nothing; otherwise each reaction's increments are applied in order |
| SlackReactions.ReactionTally.CountReactions | slack_reactions/sh_script.rb:56-70 | the hash becomes the in-order application of every increment of every message, and every entry stays consistent |
| SlackReactions.ApplyAllKeepsConsistent | slack_reactions/sh_script.rb:63-65 | every user's `reaction_count` stays the sum of their emoji counters |
| SlackReactions.ApplyAllEmojiNonEmpty | slack_reactions/sh_script.rb:65 | every user of the tally has at least one emoji counter |
| SlackReactions.ApplyAllCounts | slack_reactions/sh_script.rb:63 | a user's total rises by exactly the number of increments naming that user |
| SlackReactions.ApplyAllEmojiCounts | slack_reactions/sh_script.rb:64-65 | a user's counter for an emoji rises by exactly the number of increments naming that user and that emoji |
| SlackReactions.ApplyAllUnlisted | slack_reactions/sh_script.rb:62-63 | a user no increment names is left as they were: absent stays absent, present is unchanged |
| SlackReactions.ApplyAllTotal | slack_reactions/sh_script.rb:63 | the users' totals together rise by the number of increments |
| SlackReactions.TicksCount | slack_reactions/sh_script.rb:57-62 | there is one increment per listed user of every reaction of every message that has reactions |
| SlackReactions.TallyConserves | slack_reactions/sh_script.rb:56-70 | one tally run raises the users' totals together by exactly the number of listed users over all reactions |
| SlackReactions.SortDesc | slack_reactions/sh_script.rb:111 | `sort_by` descending keeps the same keys and orders them by non-increasing weight |
| SlackReactions.MostOftenUsedEmoji | slack_reactions/sh_script.rb:87-89 | on a non-empty hash the result is one of its emoji |
| SlackReactions.MostOftenUsedEmojiIsMax | slack_reactions/sh_script.rb:87-89 | no emoji has a larger counter than the one returned |
| SlackReactions.RankedUsers | slack_reactions/sh_script.rb:111 | every user exactly once, with the highest totals first |
| SlackReactions.TopThree | slack_reactions/sh_script.rb:111 | min(3, number of users) distinct users of the hash |
| SlackReactions.TopThreeOrdered | slack_reactions/sh_script.rb:111 | the chosen users come in non-increasing order of `reaction_count` |
| SlackReactions.TopThreeMaximal | slack_reactions/sh_script.rb:111 | no user left out has a larger `reaction_count` than any chosen one |

## Left out

- HTTP and JSON transport are not modelled: `make_request`, `get_channel_ids`, the `conversations.history` POST of `get_messages_on`, and `user_name`. Responses are parameters, and an unanswered request is an empty sequence.
- The per-pull-request endpoints are assumed to return the same data every time they are called. The speed analyzer fetches reviews up to three times for one pull request.
- `pr_has_reviewer?` builds its URLs from `pr['base']['repo']['full_name']`, while the other calls use the repository option. The model reads one `Activity` per pull request number for both.
- `Time.parse` of ISO 8601 strings is not modelled: timestamps are given as integer seconds. So are the conversion of the date options to 00:00:00 and 23:59:59 local time (github/pr_review_speed_analyzer.rb:454-455) and time zones.
- Rounding.RoundDiv: models `Float#round(1)` exactly on the rational quotient. It does not reproduce IEEE double behaviour where the decimal tie of a quotient is not representable.
- ReviewComments.AverageHundredths: `'%.2f'` rounds the binary double. Exact decimal ties are modelled as going away from zero.
- Console output is not modelled. This covers every `puts`, the Japanese report text, the display strings ("N時間後" and "N日後" are reduced to the `DisplayUnit` choice), and `display_summary` apart from its verdict.
- Argument handling is not modelled: `parse_arguments` (OptionParser), `load_env_file` and the global `ENV`, the `GITHUB_TOKEN` default, the `__FILE__ == $0` drivers and `exit 1`. `exit 1` is the `Failure` of `ValidateOptions`.
- The commented-out Slack cursor loop (slack_reactions/sh_script.rb:103-107) is dead code. The hard-coded Slack token and dates are configuration.
- Pagination.FetchPrsInPeriod: the request parameters (state, sort, direction, per_page) are not modelled. The requested pages are given by their count n (pages 1..n), not as a list of requests.
- Pagination.FetchPrsInPeriod: termination relies on the listing being finite. Every page past the last one is empty.
- The scripts crash on a JSON null where they index into a value: review `user`, `submitted_at`, a message list without `messages`, and the like. These crashes are not modelled; the typed records always carry those fields.
- ReviewSpeed.Lower: `downcase` is modelled on ASCII letters only; other case mappings are not modelled.
- SlackReactions.ReactionTally.CountReactions: `reaction['name'] ||= 'unknown_reaction'` also writes the default name back into the parsed response. That response is discarded after the call, so the model only uses the name (`NameOf`) and never writes it. `||=` would also replace a JSON `false` name; names are strings or absent here.
- SlackReactions.TopThree: Ruby's `sort_by` is not stable and a Hash iterates in insertion order. The model proves what holds for any tie order (size, distinctness, order, maximality), but it does not fix which of several equally ranked users is chosen.
- SlackReactions.MostOftenUsedEmoji: for the same reason, among emoji with equal counters the model does not fix which one is returned. It proves only that the result has the largest counter.
- ReviewComments.CollectReviewComments: the script returns only `total_comments`. `prCount` (printed by the script) and `pagesRequested` are extra results.
