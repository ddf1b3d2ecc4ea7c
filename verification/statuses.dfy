/**
 * `Trends::Statuses`: recording eligible statuses in the recently-used log,
 * recomputing decayed scores into the two ranked views (`all` and
 * `allowed`), rank-ordered retrieval, and the selection of statuses for
 * staff review.
 */
module TrendStatuses {
  import opened Wrappers
  import opened Sequences
  import opened Records
  import opened Ranking

  /** `default_options[:threshold]`: the least engagement that scores at all. */
  const DefaultThreshold: int := 5

  /**
   * `default_options[:review_threshold]`: the stricter rank bar for review;
   * `request_review` compares against the score at rank `review_threshold - 1`.
   */
  const DefaultReviewThreshold: int := 3

  /** The expected engagement baseline, 1.0 in the source. */
  const Expected: int := 1

  /**
   * The time-decay factor for a status of a given age in seconds,
   * `0.5 ** (age / score_halflife)` in the source; only its positivity is
   * relied on.
   */
  type Decay = f: int -> real | forall age :: f(age) > 0.0 witness (age: int) => 1.0

  /** What one refresh scores with: the refresh time, the threshold option and the decay. */
  datatype Scoring = Scoring(atTime: int, threshold: int, decay: Decay)

  /** The two ranked views together. */
  datatype Views = Views(all: View, allowed: View)

  /** An entry of the recently-used log: a status id recorded at a time. */
  datatype UsedEntry = UsedEntry(id: int, at: int)

  /** A staff user, with their `allows_trending_tag_emails?` preference. */
  datatype StaffUser = StaffUser(accountId: int, allowsTrendingEmails: bool)

  /** `AdminMailer.new_trending_statuses(account, statuses)`. */
  datatype Mail = Mail(recipient: int, statuses: seq<Status>)

  // ---------------------------------------------------------------------
  // Eligibility

  /**
   * `eligible?`: the original of the status is public, its account is
   * discoverable and not silenced, it has no spoiler text, is not sensitive
   * and is not a reply.
   */
  predicate Eligible(s: Status): (b: bool)
    ensures s.reblog.Some? ==> (b <==> var o := s.reblog.value;
      o.visibility == Public && o.account.discoverable && !o.account.silenced &&
      Blank(o.spoilerText) && !o.sensitive && !o.reply)
    ensures s.reblog.None? ==> (b <==>
      s.visibility == Public && s.account.discoverable && !s.account.silenced &&
      Blank(s.spoilerText) && !s.sensitive && !s.reply)
  {
    var original := Proper(s);
    original.visibility == Public &&
    original.account.discoverable && !original.account.silenced &&
    Blank(original.spoilerText) && !original.sensitive && !original.reply
  }

  /**
   * A reblog is judged by its original alone: two statuses with the same
   * original are both eligible or both not, whatever the reblogger's own
   * visibility, account or flags.
   */
  lemma EligibleJudgesOriginal(s: Status, t: Status)
    requires Proper(s) == Proper(t)
    ensures Eligible(s) <==> Eligible(t)
  {
  }

  // ---------------------------------------------------------------------
  // Scores

  /**
   * The raw score for `observed` = reblogs + favourites: 0 below the
   * baseline or the threshold, `(observed - 1) ** 2 / 1` otherwise. It is
   * non-zero exactly when engagement reaches both the threshold and 2.
   */
  function RawScore(observed: int, threshold: int): (r: int)
    ensures r >= 0
    ensures r == 0 <==> observed < Expected + 1 || observed < threshold
    ensures observed >= Expected && observed >= threshold ==> r == (observed - 1) * (observed - 1)
  {
    if Expected > observed || observed < threshold then 0
    else (observed - Expected) * (observed - Expected) / Expected
  }

  /** With the default threshold a status scores exactly when its engagement reaches 5. */
  lemma DefaultThresholdScores(observed: int)
    ensures RawScore(observed, DefaultThreshold) > 0 <==> observed >= 5
  {
  }

  /** More engagement never lowers the raw score. */
  lemma {:induction false} RawScoreMonotone(lower: int, higher: int, threshold: int)
    requires lower <= higher
    ensures RawScore(lower, threshold) <= RawScore(higher, threshold)
  {
    if RawScore(lower, threshold) > 0 {
      SquareMonotone(lower - Expected, higher - Expected);
    }
  }

  /** Squaring is monotone on non-negative numbers. */
  lemma SquareMonotone(a: int, b: int)
    requires 0 <= a <= b
    ensures a * a <= b * b
  {
    assert a * a <= a * b by {
      assert a * (b - a) >= 0;
    }
    assert a * b <= b * b by {
      assert (b - a) * b >= 0;
    }
  }

  /** A raw score scaled by a positive decay factor. */
  function Decayed(raw: int, factor: real): (r: real)
    requires raw >= 0 && factor > 0.0
    ensures r >= 0.0
    ensures r == 0.0 <==> raw == 0
  {
    raw as real * factor
  }

  /** The engagement the source observes: reblogs plus favourites. */
  function Observed(s: Status): int {
    s.reblogsCount + s.favouritesCount
  }

  /**
   * The decayed score of a status at a refresh: its raw score times the
   * decay for its age, measured from its creation. Decay never makes a
   * score zero, so the score is zero exactly when the raw score is.
   */
  function Score(s: Status, sc: Scoring): (r: real)
    ensures r >= 0.0
    ensures r == 0.0 <==> Observed(s) < Expected + 1 || Observed(s) < sc.threshold
  {
    Decayed(RawScore(Observed(s), sc.threshold), sc.decay(sc.atTime - s.createdAt))
  }

  // ---------------------------------------------------------------------
  // The two views and the scoring pass over them

  /**
   * The consistency of the two views: `allowed` is a subset of `all` with
   * the same scores, and no stored score is zero.
   */
  ghost predicate ViewsValid(v: Views) {
    v.allowed.Keys <= v.all.Keys &&
    (forall id :: id in v.allowed ==> v.allowed[id] == v.all[id]) &&
    (forall id :: id in v.all ==> v.all[id] > 0.0)
  }

  /** Whether a status with a non-zero score is also placed in `allowed`. */
  predicate Approved(s: Status) {
    s.trendable && s.account.discoverable
  }

  /**
   * The views after processing one status (`zrem`/`zadd` on each view):
   * the status's id ends up as its score dictates, every other id keeps
   * its entries, and consistent views stay consistent.
   */
  function Step(v: Views, s: Status, sc: Scoring): (w: Views)
    ensures Processed(w, s, sc)
    ensures forall id :: id != s.id ==> SameAt(w, v, id)
    ensures ViewsValid(v) ==> ViewsValid(w)
  {
    var score := Score(s, sc);
    if score == 0.0 then Views(v.all - {s.id}, v.allowed - {s.id})
    else Views(v.all[s.id := score], if Approved(s) then v.allowed[s.id := score] else v.allowed - {s.id})
  }

  /**
   * The views after processing a list of statuses in order. The last
   * status processed always has the last word on its id.
   */
  function Apply(v: Views, ss: seq<Status>, sc: Scoring): (w: Views)
    ensures ss != [] ==> Processed(w, ss[|ss| - 1], sc)
    decreases |ss|
  {
    if ss == [] then v else Step(Apply(v, ss[..|ss| - 1], sc), ss[|ss| - 1], sc)
  }

  /**
   * The views hold exactly what processing `s` leaves for its id: a zero
   * score is in neither view; a non-zero score is in `all`, and in
   * `allowed` exactly when the status is trendable and its account
   * discoverable, with the same score.
   */
  ghost predicate Processed(v: Views, s: Status, sc: Scoring) {
    var score := Score(s, sc);
    if score == 0.0 then s.id !in v.all && s.id !in v.allowed
    else
      s.id in v.all && v.all[s.id] == score &&
      (s.id in v.allowed <==> Approved(s)) &&
      (s.id in v.allowed ==> v.allowed[s.id] == score)
  }

  /** Both views hold the same entry (or none) for `id` in `v` and `w`. */
  ghost predicate SameAt(v: Views, w: Views, id: int) {
    (id in v.all <==> id in w.all) && (id in v.all ==> v.all[id] == w.all[id]) &&
    (id in v.allowed <==> id in w.allowed) && (id in v.allowed ==> v.allowed[id] == w.allowed[id])
  }

  /** The scoring pass keeps the views consistent. */
  lemma {:induction false} ApplyValid(v: Views, ss: seq<Status>, sc: Scoring)
    requires ViewsValid(v)
    ensures ViewsValid(Apply(v, ss, sc))
    decreases |ss|
  {
    if ss != [] {
      ApplyValid(v, ss[..|ss| - 1], sc);
    }
  }

  /** The scoring pass leaves the entries of every id it does not process as they were. */
  lemma {:induction false} ApplyUntouched(v: Views, ss: seq<Status>, sc: Scoring, id: int)
    requires id !in IdSet(ss)
    ensures SameAt(Apply(v, ss, sc), v, id)
    decreases |ss|
  {
    if ss != [] {
      var init := ss[..|ss| - 1];
      var last := ss[|ss| - 1];
      assert last in ss;
      forall s | s in init ensures s in ss && s.id != id {
        var i :| 0 <= i < |init| && init[i] == s;
        assert ss[i] == s;
      }
      ApplyUntouched(v, init, sc, id);
    }
  }

  /**
   * Over statuses with unique ids, every status processed ends up exactly
   * as its own score dictates, whatever the views held before.
   */
  lemma {:induction false} ApplyProcessed(v: Views, ss: seq<Status>, sc: Scoring, s: Status)
    requires UniqueIds(ss)
    requires s in ss
    ensures Processed(Apply(v, ss, sc), s, sc)
    decreases |ss|
  {
    var init := ss[..|ss| - 1];
    var last := ss[|ss| - 1];
    assert ss == init + [last];
    if s != last {
      assert s in init;
      var k :| 0 <= k < |init| && init[k] == s;
      assert ss[k] == s;
      assert s.id != last.id;
      assert UniqueIds(init);
      ApplyProcessed(v, init, sc, s);
    }
  }

  /** The ids held after the pass were held before or were processed. */
  lemma {:induction false} ApplyKeys(v: Views, ss: seq<Status>, sc: Scoring)
    ensures Apply(v, ss, sc).all.Keys <= v.all.Keys + IdSet(ss)
    decreases |ss|
  {
    if ss != [] {
      var init := ss[..|ss| - 1];
      assert ss == init + [ss[|ss| - 1]];
      assert IdSet(ss) == IdSet(init) + {ss[|ss| - 1].id};
      ApplyKeys(v, init, sc);
    }
  }

  /** Processing statuses whose entries are already in place changes nothing. */
  lemma {:induction false} ApplySettled(w: Views, ss: seq<Status>, sc: Scoring)
    requires forall s :: s in ss ==> Processed(w, s, sc)
    ensures Apply(w, ss, sc) == w
    decreases |ss|
  {
    if ss != [] {
      var init := ss[..|ss| - 1];
      var last := ss[|ss| - 1];
      assert ss == init + [last];
      ApplySettled(w, init, sc);
      assert Processed(w, last, sc);
      var score := Score(last, sc);
      if score == 0.0 {
        assert w.all - {last.id} == w.all;
        assert w.allowed - {last.id} == w.allowed;
      } else {
        assert w.all[last.id := score] == w.all;
        if Approved(last) {
          assert w.allowed[last.id := score] == w.allowed;
        } else {
          assert w.allowed - {last.id} == w.allowed;
        }
      }
    }
  }

  // ---------------------------------------------------------------------
  // The recently-used log and refresh

  /** `recently_used_ids`: the ids logged at or after the start of the retention window. */
  function RecentlyUsedIds(log: seq<UsedEntry>, horizon: int): (ids: seq<int>)
    ensures Elems(ids) == set e | e in log && e.at >= horizon :: e.id
    decreases |log|
  {
    if log == [] then []
    else
      var init := log[..|log| - 1];
      var last := log[|log| - 1];
      assert log == init + [last];
      var prefix := RecentlyUsedIds(init, horizon);
      var r := prefix + (if last.at >= horizon then [last.id] else []);
      assert Elems(r) == Elems(prefix) + Elems(if last.at >= horizon then [last.id] else []);
      r
  }

  /** `trim_older_items`: the log without the entries older than the retention window. */
  function Trim(log: seq<UsedEntry>, horizon: int): (r: seq<UsedEntry>)
    ensures forall e :: e in r <==> e in log && e.at >= horizon
  {
    Filter(log, (e: UsedEntry) => e.at >= horizon)
  }

  /** The refresh candidates: the recently used ids and every id of `all`. */
  ghost function Candidates(v: Views, log: seq<UsedEntry>, horizon: int): set<int> {
    Elems(RecentlyUsedIds(log, horizon)) + v.all.Keys
  }

  /** The views after a refresh: every candidate the repository resolves is rescored. */
  ghost function Refreshed(v: Views, log: seq<UsedEntry>, horizon: int, repo: seq<Status>, sc: Scoring): Views {
    Apply(v, Where(repo, Candidates(v, log, horizon)), sc)
  }

  /**
   * Refreshing again at the same time, with no new events, leaves both
   * views as the first refresh left them.
   */
  lemma RefreshIdempotent(v: Views, log: seq<UsedEntry>, horizon: int, repo: seq<Status>, sc: Scoring)
    requires UniqueIds(repo)
    ensures Refreshed(Refreshed(v, log, horizon, repo, sc), Trim(log, horizon), horizon, repo, sc)
         == Refreshed(v, log, horizon, repo, sc)
  {
    var first := Where(repo, Candidates(v, log, horizon));
    var w := Apply(v, first, sc);
    var second := Where(repo, Candidates(w, Trim(log, horizon), horizon));
    assert Elems(RecentlyUsedIds(Trim(log, horizon), horizon)) == Elems(RecentlyUsedIds(log, horizon));
    ApplyKeys(v, first, sc);
    assert Candidates(w, Trim(log, horizon), horizon) <= Candidates(v, log, horizon);
    FilterUnique(repo, (s: Status) => s.id in Candidates(v, log, horizon));
    forall s | s in second ensures Processed(w, s, sc) {
      ApplyProcessed(v, first, sc, s);
    }
    ApplySettled(w, second, sc);
  }

  /**
   * The key part of `Processed`: whether `s` has an entry in each view, as
   * its score dictates, whatever the entry's value.
   */
  ghost predicate Placed(v: Views, s: Status, sc: Scoring) {
    if Score(s, sc) == 0.0 then s.id !in v.all && s.id !in v.allowed
    else s.id in v.all && (s.id in v.allowed <==> Approved(s))
  }

  /** Rescoring statuses that are already placed changes no key of either view. */
  lemma {:induction false} ApplySettledKeys(w: Views, ss: seq<Status>, sc: Scoring)
    requires forall s :: s in ss ==> Placed(w, s, sc)
    ensures Apply(w, ss, sc).all.Keys == w.all.Keys
    ensures Apply(w, ss, sc).allowed.Keys == w.allowed.Keys
    decreases |ss|
  {
    if ss != [] {
      var init := ss[..|ss| - 1];
      var last := ss[|ss| - 1];
      assert ss == init + [last];
      ApplySettledKeys(w, init, sc);
      var u := Apply(w, init, sc);
      assert Placed(w, last, sc);
      var score := Score(last, sc);
      if score == 0.0 {
        assert (u.all - {last.id}).Keys == u.all.Keys;
        assert (u.allowed - {last.id}).Keys == u.allowed.Keys;
      } else {
        assert u.all[last.id := score].Keys == u.all.Keys;
        if Approved(last) {
          assert u.allowed[last.id := score].Keys == u.allowed.Keys;
        } else {
          assert (u.allowed - {last.id}).Keys == u.allowed.Keys;
        }
      }
    }
  }

  /**
   * A later refresh of the trimmed log, with any retention window and any
   * scoring of the same threshold, keeps the ids of both views: scores may
   * change with time and decay, membership does not.
   */
  lemma RefreshStableKeys(v: Views, log: seq<UsedEntry>, horizon: int, horizon': int,
                          repo: seq<Status>, sc: Scoring, sc': Scoring)
    requires UniqueIds(repo)
    requires sc'.threshold == sc.threshold
    ensures var w := Refreshed(v, log, horizon, repo, sc);
            var w' := Refreshed(w, Trim(log, horizon), horizon', repo, sc');
            w'.all.Keys == w.all.Keys && w'.allowed.Keys == w.allowed.Keys
  {
    var first := Where(repo, Candidates(v, log, horizon));
    var w := Apply(v, first, sc);
    var second := Where(repo, Candidates(w, Trim(log, horizon), horizon'));
    assert Elems(RecentlyUsedIds(Trim(log, horizon), horizon')) <= Elems(RecentlyUsedIds(log, horizon));
    ApplyKeys(v, first, sc);
    assert Candidates(w, Trim(log, horizon), horizon') <= Candidates(v, log, horizon);
    FilterUnique(repo, (s: Status) => s.id in Candidates(v, log, horizon));
    forall s | s in second ensures Placed(w, s, sc') {
      ApplyProcessed(v, first, sc, s);
      // Whether a score is zero depends on the scoring only through its threshold.
      assert Score(s, sc') == 0.0 <==> Score(s, sc) == 0.0;
    }
    ApplySettledKeys(w, second, sc');
  }

  /**
   * After a refresh, a candidate the repository resolves holds exactly what
   * its score dictates, and an id that is not a resolvable candidate keeps
   * its entries: in particular an id of `all` whose status no longer
   * resolves stays in `all`.
   */
  lemma RefreshEffect(v: Views, log: seq<UsedEntry>, horizon: int, repo: seq<Status>, sc: Scoring, id: int)
    requires UniqueIds(repo)
    ensures forall s :: s in repo && s.id == id && id in Candidates(v, log, horizon) ==>
      Processed(Refreshed(v, log, horizon, repo, sc), s, sc)
    ensures (forall s :: s in repo ==> s.id != id) ==> SameAt(Refreshed(v, log, horizon, repo, sc), v, id)
  {
    var cands := Candidates(v, log, horizon);
    var ss := Where(repo, cands);
    FilterUnique(repo, (s: Status) => s.id in cands);
    forall s | s in repo && s.id == id && id in cands ensures Processed(Apply(v, ss, sc), s, sc) {
      ApplyProcessed(v, ss, sc, s);
    }
    if forall s :: s in repo ==> s.id != id {
      assert id !in IdSet(ss);
      ApplyUntouched(v, ss, sc, id);
    }
  }

  // ---------------------------------------------------------------------
  // Review selection

  /** The score of an id in a view, 0 for an absent id. */
  function ScoreOf(view: View, id: int): real {
    if id in view then view[id] else 0.0
  }

  /**
   * `would_be_trending?`: the id scores above the review cutoff, an id
   * missing from the view scoring 0.
   */
  predicate WouldBeTrending(view: View, id: int, cutoff: real): (b: bool)
    ensures id in view ==> (b <==> view[id] > cutoff)
    ensures id !in view ==> (b <==> cutoff < 0.0)
  {
    ScoreOf(view, id) > cutoff
  }

  /**
   * A status to flag for review: above the cutoff, not trendable and still
   * requiring a review notification.
   */
  predicate Flagged(view: View, cutoff: real, s: Status) {
    WouldBeTrending(view, s.id, cutoff) && !s.trendable && s.requiresReviewNotification
  }

  /** The statuses flagged for review, in the order they were fetched. */
  function ReviewBatch(ss: seq<Status>, view: View, cutoff: real): (batch: seq<Status>)
    ensures forall s :: s in batch <==> s in ss && Flagged(view, cutoff, s)
  {
    Filter(ss, (s: Status) => Flagged(view, cutoff, s))
  }

  /** Fetching one more status adds it to the batch exactly when it is flagged. */
  lemma ReviewBatchSnoc(ss: seq<Status>, s: Status, view: View, cutoff: real)
    ensures ReviewBatch(ss + [s], view, cutoff)
         == ReviewBatch(ss, view, cutoff) + (if Flagged(view, cutoff, s) then [s] else [])
  {
    assert (ss + [s])[..|ss|] == ss;
  }

  /** One more step of the fetch order: the batch grows by the next status exactly when it is flagged. */
  lemma ReviewBatchStep(ss: seq<Status>, i: nat, view: View, cutoff: real)
    requires i < |ss|
    ensures ReviewBatch(ss[..i + 1], view, cutoff)
         == ReviewBatch(ss[..i], view, cutoff) + (if Flagged(view, cutoff, ss[i]) then [ss[i]] else [])
  {
    assert ss[..i + 1] == ss[..i] + [ss[i]];
    ReviewBatchSnoc(ss[..i], ss[i], view, cutoff);
  }

  /** The accounts of a batch, whose `requested_review_at` a review pass touches. */
  function AccountsOf(batch: seq<Status>): set<int> {
    set s | s in batch :: s.account.id
  }

  /** Flagging one more status touches its account too. */
  lemma AccountsOfSnoc(batch: seq<Status>, s: Status)
    ensures AccountsOf(batch + [s]) == AccountsOf(batch) + {s.account.id}
  {
  }

  /**
   * A flagged status ranks above the review cutoff position in every full
   * ranking of the view the cutoff comes from.
   */
  lemma FlaggedRanksHigher(repo: seq<Status>, view: View, ranking: seq<int>, k: nat, s: Status)
    requires IsTop(view, -1, ranking) && k < |ranking|
    requires s in ReviewBatch(Where(repo, view.Keys), view, ScoreAtRank(view, ranking, k))
    ensures s.id in ranking[..k]
  {
    AboveCutoffRanksHigher(view, ranking, k, s.id);
  }

  /** The mails for one review pass: one per opted-in staff user, each with the whole batch. */
  function StaffMails(staff: seq<StaffUser>, batch: seq<Status>): (mails: seq<Mail>)
    ensures |mails| == |Filter(staff, (u: StaffUser) => u.allowsTrendingEmails)| <= |staff|
    ensures forall m :: m in mails ==> m.statuses == batch
    ensures forall m :: m in mails <==> exists u :: u in staff && u.allowsTrendingEmails && m == Mail(u.accountId, batch)
    decreases |staff|
  {
    if staff == [] then []
    else
      var init := staff[..|staff| - 1];
      var last := staff[|staff| - 1];
      assert staff == init + [last];
      StaffMails(init, batch) + (if last.allowsTrendingEmails then [Mail(last.accountId, batch)] else [])
  }

  /** The staff loop of `request_review`: mails the batch to every opted-in staff user. */
  method MailStaff(staff: seq<StaffUser>, batch: seq<Status>) returns (mails: seq<Mail>)
    ensures mails == StaffMails(staff, batch)
  {
    mails := [];
    var j := 0;
    while j < |staff|
      invariant 0 <= j <= |staff|
      invariant mails == StaffMails(staff[..j], batch)
    {
      assert staff[..j + 1] == staff[..j] + [staff[j]];
      if staff[j].allowsTrendingEmails {
        mails := mails + [Mail(staff[j].accountId, batch)];
      }
      j := j + 1;
    }
    assert staff[..|staff|] == staff;
  }

  // ---------------------------------------------------------------------
  // The trend store

  class TrendStore {
    /** The unrestricted ranked view (`trending_statuses:all`). */
    var all: View
    /** The moderation-approved ranked view (`trending_statuses:allowed`). */
    var allowed: View
    /** The recently-used log. */
    var log: seq<UsedEntry>
    /** Accounts whose `requested_review_at` a review pass has touched. */
    var reviewRequested: set<int>

    ghost predicate Valid()
      reads this
    {
      ViewsValid(Views(all, allowed))
    }

    constructor ()
      ensures Valid()
      ensures all == map[] && allowed == map[] && log == [] && reviewRequested == {}
    {
      all := map[];
      allowed := map[];
      log := [];
      reviewRequested := {};
    }

    /** `add`: records the status id in the log; the account id is not used. */
    method Add(status: Status, accountId: int, atTime: int)
      modifies this`log
      ensures log == old(log) + [UsedEntry(status.id, atTime)]
    {
      log := log + [UsedEntry(status.id, atTime)];
    }

    /**
     * `register`: records the id of the original status exactly when the
     * status is eligible; an ineligible status changes nothing.
     */
    method Register(status: Status, atTime: int)
      modifies this`log
      ensures Eligible(status) ==> log == old(log) + [UsedEntry(Proper(status).id, atTime)]
      ensures !Eligible(status) ==> log == old(log)
    {
      if Eligible(status) {
        Add(Proper(status), status.account.id, atTime);
      }
    }

    /** `currently_trending_ids`: the top of the chosen view, -1 meaning no limit. */
    method CurrentlyTrendingIds(fromAllowed: bool, limit: int) returns (ids: seq<int>)
      requires limit >= -1
      ensures IsTop(if fromAllowed then allowed else all, limit, ids)
    {
      ids := TopIds(if fromAllowed then allowed else all, limit);
    }

    /**
     * `get`: the trending statuses in rank order, looked up in one bulk
     * fetch; ids that no longer resolve are dropped.
     */
    method Get(fromAllowed: bool, limit: int, repo: seq<Status>) returns (statuses: seq<Status>, ghost ids: seq<int>)
      requires limit >= -1
      ensures IsTop(if fromAllowed then allowed else all, limit, ids)
      ensures statuses == Resolve(ids, IndexById(Where(repo, Elems(ids))))
      ensures forall s :: s in statuses ==> s in repo && s.id in (if fromAllowed then allowed else all)
    {
      var trending := CurrentlyTrendingIds(fromAllowed, limit);
      var found := IndexById(Where(repo, Elems(trending)));
      statuses := Resolve(trending, found);
      ids := trending;
    }

    /**
     * `calculate_scores`: processes each status in turn, removing a zero
     * score from both views and otherwise writing it to `all` and either
     * writing it to or removing it from `allowed`.
     */
    method CalculateScores(statuses: seq<Status>, sc: Scoring)
      requires Valid()
      modifies this`all, this`allowed
      ensures Valid()
      ensures Views(all, allowed) == Apply(old(Views(all, allowed)), statuses, sc)
      ensures UniqueIds(statuses) ==> forall s :: s in statuses ==> Processed(Views(all, allowed), s, sc)
      ensures forall id :: id !in IdSet(statuses) ==> SameAt(Views(all, allowed), old(Views(all, allowed)), id)
    {
      var i := 0;
      while i < |statuses|
        invariant 0 <= i <= |statuses|
        invariant Views(all, allowed) == Apply(old(Views(all, allowed)), statuses[..i], sc)
      {
        var s := statuses[i];
        var score := Score(s, sc);
        if score == 0.0 {
          all := all - {s.id};
          allowed := allowed - {s.id};
        } else {
          all := all[s.id := score];
          if s.trendable && s.account.discoverable {
            allowed := allowed[s.id := score];
          } else {
            allowed := allowed - {s.id};
          }
        }
        assert statuses[..i + 1][..i] == statuses[..i];
        i := i + 1;
      }
      assert statuses[..|statuses|] == statuses;
      ApplyValid(old(Views(all, allowed)), statuses, sc);
      forall s | UniqueIds(statuses) && s in statuses ensures Processed(Views(all, allowed), s, sc) {
        ApplyProcessed(old(Views(all, allowed)), statuses, sc, s);
      }
      forall id | id !in IdSet(statuses) ensures SameAt(Views(all, allowed), old(Views(all, allowed)), id) {
        ApplyUntouched(old(Views(all, allowed)), statuses, sc, id);
      }
    }

    /** `trim_older_items`: drops the log entries older than the retention window. */
    method TrimOlderItems(horizon: int)
      modifies this`log
      ensures log == Trim(old(log), horizon)
    {
      log := Trim(log, horizon);
    }

    /**
     * `refresh`: rescores the deduplicated union of the recently used ids
     * and the ids of `all`, then trims the log. `horizon` is the start of
     * the retention window at the refresh time.
     */
    method Refresh(repo: seq<Status>, sc: Scoring, horizon: int) returns (ghost candidates: seq<int>)
      requires Valid()
      modifies this`all, this`allowed, this`log
      ensures Valid()
      ensures Distinct(candidates) && Elems(candidates) == Candidates(old(Views(all, allowed)), old(log), horizon)
      ensures Views(all, allowed) == Refreshed(old(Views(all, allowed)), old(log), horizon, repo, sc)
      ensures log == Trim(old(log), horizon)
    {
      ghost var before := Views(all, allowed);
      var recent := RecentlyUsedIds(log, horizon);
      var trending := CurrentlyTrendingIds(false, -1);
      FullRanking(all, trending);
      var cands := Uniq(recent + trending);
      assert Elems(recent + trending) == Elems(recent) + Elems(trending);
      assert Elems(cands) == Candidates(before, log, horizon);
      var statuses := Where(repo, Elems(cands));
      assert Apply(before, statuses, sc) == Refreshed(before, log, horizon, repo, sc);
      CalculateScores(statuses, sc);
      TrimOlderItems(horizon);
      candidates := cands;
    }

    /**
     * The `filter_map` loop of `request_review`: keeps the flagged statuses
     * and touches the account of each.
     */
    method FlagForReview(statuses: seq<Status>, cutoff: real) returns (batch: seq<Status>)
      modifies this`reviewRequested
      ensures batch == ReviewBatch(statuses, all, cutoff)
      ensures reviewRequested == old(reviewRequested) + AccountsOf(batch)
    {
      var view := all;
      batch := [];
      var i := 0;
      while i < |statuses|
        invariant 0 <= i <= |statuses|
        invariant batch == ReviewBatch(statuses[..i], view, cutoff)
        invariant reviewRequested == old(reviewRequested) + AccountsOf(batch)
      {
        var s := statuses[i];
        ReviewBatchStep(statuses, i, view, cutoff);
        if WouldBeTrending(view, s.id, cutoff) && !s.trendable && s.requiresReviewNotification {
          AccountsOfSnoc(batch, s);
          reviewRequested := reviewRequested + {s.account.id};
          batch := batch + [s];
        }
        i := i + 1;
      }
      assert statuses[..|statuses|] == statuses;
    }

    /**
     * `request_review`: among the statuses of `all`, flags those above the
     * score at position `cutoffRank` of the ranking (`review_threshold - 1`
     * in the store's rank indexing), not trendable and still requiring a
     * review notification; touches each flagged status's account, and mails
     * the whole batch to every opted-in staff user when the batch is
     * non-empty.
     */
    method RequestReview(repo: seq<Status>, cutoffRank: nat, staff: seq<StaffUser>)
      returns (batch: seq<Status>, mails: seq<Mail>, ghost ranking: seq<int>)
      modifies this`reviewRequested
      ensures IsTop(all, -1, ranking)
      ensures batch == ReviewBatch(Where(repo, all.Keys), all, ScoreAtRank(all, ranking, cutoffRank))
      ensures reviewRequested == old(reviewRequested) + AccountsOf(batch)
      ensures batch == [] ==> mails == []
      ensures batch != [] ==> mails == StaffMails(staff, batch)
    {
      var ids := CurrentlyTrendingIds(false, -1);
      ranking := ids;
      FullRanking(all, ids);
      var statuses := Where(repo, Elems(ids));
      var cutoff := if cutoffRank < |ids| then all[ids[cutoffRank]] else 0.0;
      batch := FlagForReview(statuses, cutoff);
      mails := [];
      if batch != [] {
        mails := MailStaff(staff, batch);
      }
    }
  }
}
