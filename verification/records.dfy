/**
 * The snapshots of statuses and accounts that the trend engine reads from the
 * content repository, and the bulk lookups it performs there
 * (`Status.where(id: ...)`, `index_by(&:id)`, map-and-compact).
 */
module Records {
  import opened Wrappers
  import opened Sequences

  datatype Visibility = Public | Unlisted | Private | Direct

  datatype Account = Account(id: int, discoverable: bool, silenced: bool)

  /**
   * A status as the repository returns it. `reblog` is the reblogged
   * original, if this status is a reblog; `trendable` and
   * `requiresReviewNotification` are the repository's own answers to
   * `trendable?` and `requires_review_notification?`; `discarded` is a
   * soft-deleted status (outside the `kept` scope).
   */
  datatype Status = Status(
    id: int,
    createdAt: int,
    reblogsCount: int,
    favouritesCount: int,
    visibility: Visibility,
    account: Account,
    spoilerText: string,
    sensitive: bool,
    reply: bool,
    reblog: Option<Status>,
    trendable: bool,
    requiresReviewNotification: bool,
    discarded: bool)

  /** `status.proper`: the reblogged original for a reblog, the status itself otherwise. */
  function Proper(s: Status): (original: Status)
    ensures s.reblog.None? ==> original == s
    ensures s.reblog.Some? ==> original == s.reblog.value
  {
    match s.reblog
    case Some(original) => original
    case None => s
  }

  /** A character of Ruby's `[[:space:]]` class, which `String#blank?` uses. */
  predicate IsBlankSpace(c: char) {
    var n := c as int;
    (0x09 <= n <= 0x0D) || n == 0x20 || n == 0x85 || n == 0xA0 || n == 0x1680 ||
    (0x2000 <= n <= 0x200A) || n == 0x2028 || n == 0x2029 || n == 0x202F ||
    n == 0x205F || n == 0x3000
  }

  /** `String#blank?`: empty or whitespace only. */
  predicate Blank(s: string): (b: bool)
    ensures s == [] ==> b
    ensures b <==> forall c :: c in s ==> IsBlankSpace(c)
  {
    forall i :: 0 <= i < |s| ==> IsBlankSpace(s[i])
  }

  /** No two rows share an id, as in a table keyed by id. */
  predicate UniqueIds(rows: seq<Status>) {
    forall i, j :: 0 <= i < j < |rows| ==> rows[i].id != rows[j].id
  }

  /** The ids of some rows. */
  function IdSet(rows: seq<Status>): set<int> {
    set s | s in rows :: s.id
  }

  /** Selecting rows keeps their ids unique. */
  lemma {:induction false} FilterUnique(rows: seq<Status>, p: Status -> bool)
    requires UniqueIds(rows)
    ensures UniqueIds(Filter(rows, p))
    decreases |rows|
  {
    if rows != [] {
      var init := rows[..|rows| - 1];
      var last := rows[|rows| - 1];
      assert rows == init + [last];
      assert UniqueIds(init);
      FilterUnique(init, p);
      var head := Filter(init, p);
      forall i | 0 <= i < |head| ensures head[i].id != last.id {
        assert head[i] in init;
        var k :| 0 <= k < |init| && init[k] == head[i];
        assert rows[k] == head[i];
      }
    }
  }

  /**
   * `Status.where(id: ids)`: the rows of the repository whose id is one of
   * `ids`, in the repository's own order (not in the order of `ids`).
   */
  function Where(repo: seq<Status>, ids: set<int>): (r: seq<Status>)
    ensures forall s :: s in r <==> s in repo && s.id in ids
  {
    Filter(repo, (s: Status) => s.id in ids)
  }

  /**
   * `index_by(&:id)`: a map from id to row; for a repeated id the later row
   * wins, as when a Ruby hash is built front to back.
   */
  function IndexById(rows: seq<Status>): (m: map<int, Status>)
    ensures m.Keys == IdSet(rows)
    ensures forall id :: id in m ==> m[id] in rows && m[id].id == id
    decreases |rows|
  {
    if rows == [] then map[]
    else
      var init := rows[..|rows| - 1];
      var last := rows[|rows| - 1];
      assert rows == init + [last];
      assert IdSet(rows) == IdSet(init) + {last.id};
      IndexById(init)[last.id := last]
  }

  /** Over rows with unique ids, every row is found under its own id. */
  lemma {:induction false} IndexByIdFinds(rows: seq<Status>, s: Status)
    requires UniqueIds(rows)
    requires s in rows
    ensures s.id in IndexById(rows) && IndexById(rows)[s.id] == s
    decreases |rows|
  {
    var init := rows[..|rows| - 1];
    var last := rows[|rows| - 1];
    assert rows == init + [last];
    if s != last {
      assert s in init;
      var k :| 0 <= k < |init| && init[k] == s;
      assert rows[k] == s;
      assert UniqueIds(init);
      IndexByIdFinds(init, s);
    }
  }

  /**
   * `ids.map { |id| lookup[id] }.compact`: the rows found for `ids`, in the
   * order of `ids`, with the ids that find nothing dropped.
   */
  function Resolve(ids: seq<int>, lookup: map<int, Status>): (r: seq<Status>)
    ensures |r| <= |ids|
    ensures forall s :: s in r ==> s in lookup.Values
    decreases |ids|
  {
    if ids == [] then []
    else (if ids[0] in lookup then [lookup[ids[0]]] else []) + Resolve(ids[1..], lookup)
  }

  /** The positions in `ids` of the ids that `lookup` finds, in ascending order. */
  function Positions(ids: seq<int>, lookup: map<int, Status>): (pos: seq<nat>)
    ensures forall k :: 0 <= k < |pos| ==> pos[k] < |ids| && ids[pos[k]] in lookup
    decreases |ids|
  {
    if ids == [] then []
    else
      var rest := Positions(ids[1..], lookup);
      var r := (if ids[0] in lookup then [0] else []) + Shift(rest);
      assert forall k :: 0 <= k < |rest| ==> ids[rest[k] + 1] == ids[1..][rest[k]];
      r
  }

  /** Every position moved one place on. */
  function Shift(pos: seq<nat>): (r: seq<nat>)
    ensures |r| == |pos|
    ensures forall k :: 0 <= k < |pos| ==> r[k] == pos[k] + 1
    decreases |pos|
  {
    if pos == [] then [] else [pos[0] + 1] + Shift(pos[1..])
  }

  lemma {:induction false} PositionsAscending(ids: seq<int>, lookup: map<int, Status>)
    ensures forall k, l :: 0 <= k < l < |Positions(ids, lookup)| ==>
      Positions(ids, lookup)[k] < Positions(ids, lookup)[l]
    decreases |ids|
  {
    if ids != [] {
      PositionsAscending(ids[1..], lookup);
    }
  }

  lemma {:induction false} PositionsComplete(ids: seq<int>, lookup: map<int, Status>)
    ensures forall i :: 0 <= i < |ids| && ids[i] in lookup ==> i in Positions(ids, lookup)
    decreases |ids|
  {
    if ids != [] {
      PositionsComplete(ids[1..], lookup);
      var rest := Positions(ids[1..], lookup);
      var pos := Positions(ids, lookup);
      var h := if ids[0] in lookup then 1 else 0;
      forall i | 0 < i < |ids| && ids[i] in lookup ensures i in pos {
        assert ids[1..][i - 1] == ids[i];
        var k :| 0 <= k < |rest| && rest[k] == i - 1;
        assert pos[h + k] == i;
      }
    }
  }

  lemma {:induction false} ResolveAtPositions(ids: seq<int>, lookup: map<int, Status>)
    ensures |Resolve(ids, lookup)| == |Positions(ids, lookup)|
    ensures forall k :: 0 <= k < |Resolve(ids, lookup)| ==>
      Resolve(ids, lookup)[k] == lookup[ids[Positions(ids, lookup)[k]]]
    decreases |ids|
  {
    if ids != [] {
      ResolveAtPositions(ids[1..], lookup);
      var rest := Positions(ids[1..], lookup);
      var pos := Positions(ids, lookup);
      var r := Resolve(ids, lookup);
      var h := if ids[0] in lookup then 1 else 0;
      forall k | h <= k < |r| ensures r[k] == lookup[ids[pos[k]]] {
        assert ids[pos[k]] == ids[1..][rest[k - h]];
      }
    }
  }

  /**
   * Resolution is order-preserving: the result is exactly the subsequence of
   * `ids` that the lookup finds, mapped through it. `pos` gives, for each
   * result row, the position in `ids` it came from.
   */
  lemma ResolveOrder(ids: seq<int>, lookup: map<int, Status>) returns (pos: seq<nat>)
    ensures |pos| == |Resolve(ids, lookup)|
    ensures forall k :: 0 <= k < |pos| ==>
      pos[k] < |ids| && ids[pos[k]] in lookup && Resolve(ids, lookup)[k] == lookup[ids[pos[k]]]
    ensures forall k, l :: 0 <= k < l < |pos| ==> pos[k] < pos[l]
    ensures forall i :: 0 <= i < |ids| && ids[i] in lookup ==> i in pos
  {
    pos := Positions(ids, lookup);
    PositionsAscending(ids, lookup);
    PositionsComplete(ids, lookup);
    ResolveAtPositions(ids, lookup);
  }
}
