# Trending statuses: a Dafny model

This project models the status side of Mastodon's trends engine, `Trends::Statuses` and `Trends::StatusFilter`.

- **Registering.** Each new status or reblog goes through `register`. It records the original status's id in the recently-used log, but only when that original is eligible.
- **Refreshing.** A periodic `refresh` re-scores every candidate. The candidates are the recently used ids plus every id already ranked.
  - A status's raw score comes from its reblogs plus favourites. It is 0 below the baseline of 1 or below the threshold, and `(observed - 1)^2` otherwise.
  - The raw score is multiplied by a positive time-decay factor.
  - The result is written into two ranked views. `all` holds every status with a non-zero score. `allowed` holds only those that are trendable and whose account is discoverable.
  - The refresh then trims the log.
- **Reading.** `get` returns the trending statuses in rank order and drops the ids that no longer resolve.
- **Review.** `request_review` picks out, among the statuses of `all`, those that are:
  - scoring above the score at the review cutoff rank;
  - not trendable;
  - still requiring a review notification.

  It touches each one's account. When the batch is not empty, it mails the batch to every staff user who opted in.
- **Filtering.** `Trends::StatusFilter#results` turns request parameters into a query over the kept statuses.
  - It skips `page` and blank values.
  - It raises "Unknown filter" for any key other than `trending`.
  - For `trending`, it narrows the query to the ids of the chosen view (`allowed`, or `all` for any other value), in rank order.

## Structure

- `wrappers.dfy` defines `Option` and `Result`.
- `sequences.dfy` holds sequence helpers: distinctness, element sets, `Array#uniq` and `select`.
- `records.dfy` holds the status and account snapshots read from the database, and the bulk lookups:
  - `Status.where(id: …)`;
  - `index_by(&:id)`;
  - map-and-compact resolution.
- `ranking.dfy` is the ranked store behind `Trends::Base`, kept abstract.
  - A view is a map from id to score.
  - A rank query returns the ids in descending score order, as many as the limit allows, with -1 meaning no limit. The order among ties is left unfixed.
  - `score_at_rank` is proved independent of that tie order.
- `statuses.dfy` models `Trends::Statuses`.
  - The score rule is a set of functions.
  - The scoring pass is specified as a left fold (`Apply`) of a one-status step (`Step`) over the two views.
  - The `TrendStore` class keeps the two views, the recently-used log and the set of accounts whose review was requested. Its methods update them in place.
- `status_filter.dfy` models `Trends::StatusFilter`.
  - The parameter loop becomes a method that may fail with the "Unknown filter" error.
  - The `unnest … with ordinality` join becomes a per-position selection, proved equal to ordered look-up-and-drop.

## Model

| member | source | states |
|---|---|---|
| TrendStatuses.TrendStore.Register | app/models/trends/statuses.rb:12-14 | An eligible status appends the id of its original (`proper`) status to the log. An ineligible status leaves the log as it was. |
| Records.Proper | app/models/trends/statuses.rb:61 | `proper`: a status that is not a reblog is its own original; a reblog's original is the status it reblogs. |
| Records.Blank | app/models/trends/statuses.rb:65 | `blank?`: true exactly when every character is Ruby whitespace, so the empty string is blank. `present?` at app/models/trends/status_filter.rb:20 is its negation. |
| TrendStatuses.Eligible | app/models/trends/statuses.rb:60-66 | `eligible?`: true exactly when the original status is public, its account is discoverable and not silenced, its spoiler text is blank, and it is neither sensitive nor a reply. For a reblog these are the reblogged status's fields, not the reblogger's. |
| TrendStatuses.EligibleJudgesOriginal | app/models/trends/statuses.rb:60-66 | Eligibility depends only on the original status: two statuses with the same original are both eligible or both not. |
| TrendStatuses.TrendStore.Add | app/models/trends/statuses.rb:16-21 | Appends exactly one log entry, holding the status id and the time. The account id is not used. |
| TrendStatuses.RawScore | app/models/trends/statuses.rb:70-79 | The raw score is never negative. It is zero exactly when engagement is below 2 or below the threshold. Otherwise it is `(observed - 1)^2`. |
| TrendStatuses.DefaultThresholdScores | app/models/trends/statuses.rb:6-10 | With the default threshold of 5, a status scores exactly when reblogs plus favourites reach 5. |
| TrendStatuses.RawScoreMonotone | app/models/trends/statuses.rb:70-79 | More engagement never lowers the raw score. |
| TrendStatuses.Decayed | app/models/trends/statuses.rb:81 | A positive decay factor keeps the score non-negative, and zero exactly when the raw score is zero. |
| TrendStatuses.Score | app/models/trends/statuses.rb:70-81 | The decayed score is zero exactly when the raw score is zero, which happens exactly when engagement is below 2 or below the threshold. |
| TrendStatuses.Step | app/models/trends/statuses.rb:83-94 | One status's `zrem`/`zadd`s leave its id exactly as its score dictates: in neither view for a zero score; otherwise in `all` with that score, and in `allowed` with it exactly when trendable and discoverable. Every other id keeps its entries. Consistent views stay consistent. |
| TrendStatuses.Apply | app/models/trends/statuses.rb:69-95 | Processing statuses in order: the last status processed always has the last word on its id. |
| TrendStatuses.TrendStore.CalculateScores | app/models/trends/statuses.rb:68-96 | The new views are the fold of the one-status step over the batch. They stay consistent: `allowed` ⊆ `all` with equal scores, and no zero scores. Each processed status ends up as its score dictates. Every id not in the batch is unchanged in both views. |
| TrendStatuses.ApplyValid | app/models/trends/statuses.rb:68-96 | The scoring pass preserves the invariant: `allowed` ⊆ `all` with the same scores, and every stored score is positive. |
| TrendStatuses.ApplyProcessed | app/models/trends/statuses.rb:83-93 | After the pass over rows with unique ids, each status follows its own score. A zero score means its id is in neither view. A non-zero score means `all[id]` is that score, and the id is in `allowed` with the same score exactly when the status is trendable and its account discoverable. |
| TrendStatuses.ApplyUntouched | app/models/trends/statuses.rb:68-96 | Ids the pass does not process keep their entries in both views. |
| TrendStatuses.ApplyKeys | app/models/trends/statuses.rb:83-94 | After the pass, every id in `all` was in `all` before or was processed. |
| TrendStatuses.ApplySettled | app/models/trends/statuses.rb:68-96 | Processing statuses whose entries already match their scores changes nothing. |
| TrendStatuses.RecentlyUsedIds | app/models/trends/statuses.rb:30 | The recently used ids are exactly the ids of log entries inside the retention window. |
| TrendStatuses.Trim | app/models/trends/statuses.rb:32 | Trimming keeps exactly the log entries inside the retention window. |
| TrendStatuses.TrendStore.TrimOlderItems | app/models/trends/statuses.rb:32 | The log becomes its trimmed version. |
| Sequences.Uniq | app/models/trends/statuses.rb:30 | `uniq` yields a distinct list with the same elements. |
| TrendStatuses.TrendStore.Refresh | app/models/trends/statuses.rb:29-33 | The candidates are distinct and are exactly the recently used ids together with every id of `all`. The views become the scoring pass over the candidates the database resolves. The views stay consistent, and the log is trimmed. |
| TrendStatuses.RefreshIdempotent | app/models/trends/statuses.rb:29-33 | A second refresh at the same time, with no new events, leaves both views as the first refresh left them. |
| TrendStatuses.RefreshStableKeys | app/models/trends/statuses.rb:29-33 | A later refresh over the trimmed log, with any retention window and any time and decay under the same threshold, keeps exactly the ids of both views; only their scores may change. |
| TrendStatuses.ApplySettledKeys | app/models/trends/statuses.rb:68-96 | Rescoring statuses whose entries are already present or absent as their scores dictate adds and removes no id in either view. |
| TrendStatuses.RefreshEffect | app/models/trends/statuses.rb:29-33 | After a refresh, every resolvable candidate holds exactly what its score dictates. An id whose status does not resolve keeps its entries. |
| Ranking.TopIds | app/models/trends/statuses.rb:24 | The rank query returns distinct ids of the view in descending score order. There are `limit` of them, or all of them for -1 or a short view. No id left out outscores one returned. |
| TrendStatuses.TrendStore.CurrentlyTrendingIds | app/models/trends/statuses.rb:24 | Answers a rank query on the `allowed` or the `all` view. |
| Ranking.FullRanking | app/models/trends/statuses.rb:36 | An unlimited rank query lists every id of the view. |
| Ranking.ScoreAtRankTieFree | app/models/trends/statuses.rb:99 | The score at a rank is the same in every full ranking of a view, whatever the tie order. |
| Ranking.ScoreAtRank | app/models/trends/statuses.rb:99 | `score_at_rank(k)`: a score the view holds, with at most k ids scoring strictly above it and more than k ids scoring at least as much, or 0 when the view has no id at that position. |
| Ranking.FewAbove | app/models/trends/statuses.rb:99 | At most k ids of a view score strictly above the id at position k of a full ranking. |
| Ranking.ManyAtLeast | app/models/trends/statuses.rb:99 | More than k ids of a view score at least as much as the id at position k of a full ranking. |
| Ranking.AboveCutoffRanksHigher | app/models/trends/statuses.rb:98-100 | An id scoring above the score at position k is ranked before position k in every full ranking. |
| Records.Where | app/models/trends/statuses.rb:25 | `where(id: …)` yields exactly the rows whose id is in the set. |
| Records.IndexById | app/models/trends/statuses.rb:25 | `index_by(&:id)` maps exactly the row ids, and each one to a row with that id. |
| Records.IndexByIdFinds | app/models/trends/statuses.rb:25 | Over unique ids, every row is found under its own id. |
| Records.Resolve | app/models/trends/statuses.rb:26 | Map-and-compact never yields more rows than ids, and every row it yields is one the lookup holds. |
| Records.ResolveOrder | app/models/trends/statuses.rb:23-27 | Resolution keeps order. The result is the subsequence of the ids that resolve, at strictly increasing positions, each mapped to its row, and no resolvable id is missed. |
| TrendStatuses.TrendStore.Get | app/models/trends/statuses.rb:23-27 | The ids are a rank query answer for the chosen view and limit. The statuses are those ids resolved through one bulk lookup, with misses dropped, in rank order. Every status returned is a database row whose id is ranked in the chosen view. |
| TrendStatuses.ReviewBatch | app/models/trends/statuses.rb:38-43 | A fetched status is in the review batch exactly when all three hold: its score is above the cutoff, it is not trendable, and it requires a review notification. |
| TrendStatuses.ReviewBatchSnoc | app/models/trends/statuses.rb:38-43 | One more fetched status joins the batch, at its end, exactly when it is flagged. |
| TrendStatuses.TrendStore.FlagForReview | app/models/trends/statuses.rb:38-43 | Returns the review batch in fetch order, and touches exactly the accounts of the batch. |
| TrendStatuses.WouldBeTrending | app/models/trends/statuses.rb:98-100 | `would_be_trending?`: the id's score is strictly above the cutoff. An id missing from the view scores 0, so it qualifies only against a negative cutoff. |
| TrendStatuses.ReviewBatchStep | app/models/trends/statuses.rb:38-43 | Walking the fetched statuses in order, each one joins the batch exactly when it is flagged. |
| TrendStatuses.AccountsOfSnoc | app/models/trends/statuses.rb:41 | Flagging one more status adds its account to the touched accounts. |
| TrendStatuses.FlaggedRanksHigher | app/models/trends/statuses.rb:98-100 | A flagged status ranks above the cutoff position in every full ranking of the view. |
| TrendStatuses.StaffMails | app/models/trends/statuses.rb:47-49 | One mail goes to each opted-in staff user, each carrying the whole batch, and no other mail is sent: there are exactly as many mails as opted-in staff users. |
| TrendStatuses.MailStaff | app/models/trends/statuses.rb:47-49 | The staff loop emits exactly those mails. |
| TrendStatuses.TrendStore.RequestReview | app/models/trends/statuses.rb:35-50 | The batch is the review selection over the statuses of `all`, against the score at the cutoff rank of a full ranking. The batch's accounts are touched. No mail goes out for an empty batch. Otherwise every opted-in staff user gets the batch. |
| StatusFilter.TrimStart | app/models/trends/status_filter.rb:20 | Removes exactly the leading whitespace that `strip` removes. |
| StatusFilter.TrimEnd | app/models/trends/status_filter.rb:20 | Removes exactly the trailing whitespace that `strip` removes. |
| StatusFilter.Strip | app/models/trends/status_filter.rb:20 | `strip`: the result is no longer than the input, and neither of its ends is NUL or ASCII whitespace. |
| StatusFilter.StripSlice | app/models/trends/status_filter.rb:20 | `strip` keeps one contiguous slice of the value and removes only NUL and ASCII whitespace before and after it. |
| StatusFilter.Kept | app/models/trends/status_filter.rb:15 | The kept scope is exactly the rows not discarded. |
| StatusFilter.TrendingScope | app/models/trends/status_filter.rb:37-52 | The value `allowed` ranks the `allowed` view and any other value ranks `all`, both without a limit. No ids means no rows, which happens exactly when the view is empty. Otherwise the narrowing is by every id of the view, in rank order. |
| StatusFilter.ScopeFor | app/models/trends/status_filter.rb:28-35 | `trending` gives the trending narrowing. Every other key gives the error "Unknown filter: " followed by the key. |
| StatusFilter.MergeParam | app/models/trends/status_filter.rb:17-21 | `page` and blank values add nothing. Any other key except `trending` fails. An accepted `trending` adds the trending narrowing for its stripped value. |
| StatusFilter.SingleTrending | app/models/trends/status_filter.rb:17 | A parameter hash holds at most one `trending` parameter. |
| StatusFilter.ScopeTake | app/models/trends/status_filter.rb:20 | Meeting an accepted `trending` parameter: no earlier one exists, so its narrowing becomes the whole scope. |
| StatusFilter.ScopeSkip | app/models/trends/status_filter.rb:18-20 | Passing over `page`, a blank value or any parameter other than `trending` leaves the scope as it was. |
| StatusFilter.CollectScope | app/models/trends/status_filter.rb:17-21 | On failure, the error is the message for the first accepted key other than `trending`. On success there is no such key. The scope then merges nothing when no accepted `trending` parameter exists, and otherwise the one trending narrowing, ranked from the view its stripped value selects. |
| StatusFilter.Join | app/models/trends/status_filter.rb:50 | The ordinality join holds exactly the rows whose id is in the list. |
| StatusFilter.Narrow | app/models/trends/status_filter.rb:15-23 | Merging scopes only narrows: no scope leaves the kept rows as they are, and every row of the result is one of the rows narrowed. |
| StatusFilter.MatchingRow | app/models/trends/status_filter.rb:50 | Over unique ids, the join rows for one id are the row indexed under that id, or none. |
| StatusFilter.JoinIsResolve | app/models/trends/status_filter.rb:50 | The ordinality join equals looking the ids up and dropping misses. By `Records.ResolveOrder`, the result is exactly the rows whose id is listed, in list order. |
| StatusFilter.NarrowSingle | app/models/trends/status_filter.rb:47-51 | Merging the trending narrowing gives no rows for no ids, and the join otherwise. |
| StatusFilter.Results | app/models/trends/status_filter.rb:14-24 | Raises "Unknown filter" exactly when some accepted key is not `trending`. Otherwise the result is every kept row when there is no `trending` parameter. With one, it is no rows for an empty ranking, and the kept rows joined in rank order otherwise. |

## Left out

- Redis and the database are replaced by in-memory values.
  - Each sorted set is a `map<int, real>`.
  - The log is a sequence of (id, time) entries.
  - The database is a sequence of rows with unique ids.
  - Eager loading (`includes`, `cache_ids`) and `find_each` batching have no counterpart.
- `Trends::Base` is not part of this model.
  - `currently_trending_ids` is specified as a predicate on its answer, not as an implementation. `TopIds` is one implementation that satisfies it.
  - The key layout and the bucketed storage of the log are not modelled.
  - The retention window appears as a `horizon` argument: the start of the window at the refresh time.
- TrendStatuses.TrendStore.RequestReview: rank indexing is not fixed, so the cutoff position (`review_threshold - 1` in the store's indexing) is an argument. The cutoff score is taken from `all`. It is 0 when the view has fewer ids than the position.
- TrendStatuses.Score: the decay `0.5 ** (age / halflife)` is floating point. It is modelled as an abstract positive real for each age, so underflow to zero and rounding are not captured. The half-life lives inside that factor.
- Floating-point precision of `to_f` on very large counts is not modelled. Counts are unbounded integers.
- `Time.now.utc` defaults become explicit time arguments.
- Mail delivery and `touch(:requested_review_at)` are not performed.
  - Mails are returned as values.
  - Touched accounts are recorded in `reviewRequested`.
  - `requires_review_notification?` is read from the status snapshot, so a touch does not feed back into it.
- `trendable?` is likewise a field of the snapshot, and the default scope of `Status` is not modelled.
- StatusFilter.Results: the SQL text of the `unnest … with ordinality` join is modelled only by the rows and order it yields. Merging more than one join is left out, because a parameter hash holds at most one `trending` key (`DistinctKeys`). Parameter keys are strings, so symbol and string keys are not told apart.
- Concurrent registration and overlapping refreshes are not modelled.
- One might expect ranked statuses that can no longer be loaded to age out of the views. They do not.
  - An id in `all` whose status no longer resolves is never passed to `calculate_scores`, so it keeps its entry in both views.
  - In this model, `trim_older_items` prunes only the recently-used log and never the views. What `Trends::Base` really trims is not part of this model.
  - `RefreshEffect` states this behaviour.
