/**
 * `Trends::StatusFilter`: turns request parameters into a query over the
 * kept statuses, narrowed by the trending ranking and ordered by it.
 */
module StatusFilter {
  import opened Wrappers
  import opened Sequences
  import opened Records
  import opened Ranking
  import opened TrendStatuses

  /** One request parameter, in the order the request gives them. */
  datatype Param = Param(key: string, value: string)

  /** A scope merged into the query: no rows at all, or the rows of some ids in their order. */
  datatype Narrowing = NoRows | ByPosition(ids: seq<int>)

  /** The parameters form a hash: no key occurs twice. */
  predicate DistinctKeys(params: seq<Param>) {
    forall i, j :: 0 <= i < j < |params| ==> params[i].key != params[j].key
  }

  /** A character `String#strip` removes: ASCII whitespace or NUL. */
  predicate IsStripSpace(c: char) {
    var n := c as int;
    n == 0 || (0x09 <= n <= 0x0D) || n == 0x20
  }

  /** The string without its leading strip-space. */
  function TrimStart(s: string): (r: string)
    ensures |r| <= |s| && r == s[|s| - |r|..]
    ensures r != [] ==> !IsStripSpace(r[0])
    ensures forall i :: 0 <= i < |s| - |r| ==> IsStripSpace(s[i])
    decreases |s|
  {
    if s != [] && IsStripSpace(s[0]) then TrimStart(s[1..]) else s
  }

  /** The string without its trailing strip-space. */
  function TrimEnd(s: string): (r: string)
    ensures |r| <= |s| && r == s[..|r|]
    ensures r != [] ==> !IsStripSpace(r[|r| - 1])
    ensures forall i :: |r| <= i < |s| ==> IsStripSpace(s[i])
    decreases |s|
  {
    if s != [] && IsStripSpace(s[|s| - 1]) then TrimEnd(s[..|s| - 1]) else s
  }

  /** `String#strip`: neither end of the result is strip-space. */
  function Strip(s: string): (r: string)
    ensures |r| <= |s|
    ensures r != [] ==> !IsStripSpace(r[0]) && !IsStripSpace(r[|r| - 1])
  {
    TrimEnd(TrimStart(s))
  }

  /**
   * `strip` keeps one slice of the string, starting at `start`, and removes
   * only strip-space around it.
   */
  lemma StripSlice(s: string) returns (start: nat)
    ensures start + |Strip(s)| <= |s|
    ensures Strip(s) == s[start..start + |Strip(s)|]
    ensures forall i :: 0 <= i < start ==> IsStripSpace(s[i])
    ensures forall i :: start + |Strip(s)| <= i < |s| ==> IsStripSpace(s[i])
  {
    var t := TrimStart(s);
    start := |s| - |t|;
    var r := TrimEnd(t);
    assert Strip(s) == r;
    assert t == s[start..];
    assert r == t[..|r|];
    assert s[start..][..|r|] == s[start..start + |r|];
    forall i | start + |r| <= i < |s| ensures IsStripSpace(s[i]) {
      assert s[i] == t[i - start];
    }
  }

  /** `present?`: not blank. */
  predicate Present(s: string) {
    !Blank(s)
  }

  /** A parameter `results` merges: not `page`, and with a present value. */
  predicate Accepted(p: Param) {
    p.key != "page" && Present(p.value)
  }

  /** An accepted parameter other than `trending`: `scope_for` raises for it. */
  predicate Unknown(p: Param) {
    Accepted(p) && p.key != "trending"
  }

  /** The message `scope_for` raises for a key it does not know. */
  function UnknownFilter(key: string): string {
    "Unknown filter: " + key
  }

  /** An accepted `trending` parameter. */
  predicate Trending(p: Param) {
    Accepted(p) && p.key == "trending"
  }

  /** The view `trending_scope` queries for a (stripped) value. */
  function SelectedView(store: TrendStore, value: string): View
    reads store
  {
    if value == "allowed" then store.allowed else store.all
  }

  /** The narrowing for an id list: none for no ids. */
  function NarrowingFor(ids: seq<int>): Narrowing {
    if ids == [] then NoRows else ByPosition(ids)
  }

  /**
   * The join with `unnest(array[ids]) with ordinality`, ordered by the
   * ordinality: for each position of `ids` in turn, the rows with that id.
   */
  function Join(rows: seq<Status>, ids: seq<int>): (r: seq<Status>)
    ensures forall x :: x in r <==> x in rows && x.id in ids
    decreases |ids|
  {
    if ids == [] then []
    else
      var rest := Join(rows, ids[1..]);
      assert forall id :: id in ids <==> id == ids[0] || id in ids[1..];
      Filter(rows, (r: Status) => r.id == ids[0]) + rest
  }

  /** Over rows with unique ids, the rows with one id are the row indexed under it, if any. */
  lemma {:induction false} MatchingRow(rows: seq<Status>, id: int)
    requires UniqueIds(rows)
    ensures Filter(rows, (r: Status) => r.id == id)
         == if id in IndexById(rows) then [IndexById(rows)[id]] else []
    decreases |rows|
  {
    if rows != [] {
      var init := rows[..|rows| - 1];
      var last := rows[|rows| - 1];
      assert rows == init + [last];
      assert UniqueIds(init);
      MatchingRow(init, id);
      if last.id == id {
        assert id !in IndexById(init) by {
          forall k | 0 <= k < |init| ensures init[k].id != id {
            assert rows[k] == init[k];
          }
        }
      }
    }
  }

  /**
   * Over rows with unique ids the ordinality join is the same as looking
   * the ids up and dropping the misses: exactly the rows whose id is in the
   * list, in list order.
   */
  lemma {:induction false} JoinIsResolve(rows: seq<Status>, ids: seq<int>)
    requires UniqueIds(rows)
    ensures Join(rows, ids) == Resolve(ids, IndexById(rows))
    decreases |ids|
  {
    if ids != [] {
      MatchingRow(rows, ids[0]);
      JoinIsResolve(rows, ids[1..]);
    }
  }

  /** The rows a scope selects from the table: the kept rows, narrowed by each merge. */
  function Narrow(scope: seq<Narrowing>, rows: seq<Status>): (r: seq<Status>)
    ensures scope == [] ==> r == rows
    ensures forall x :: x in r ==> x in rows
    decreases |scope|
  {
    if scope == [] then rows
    else
      var narrowed := match scope[0]
        case NoRows => []
        case ByPosition(ids) => Join(rows, ids);
      Narrow(scope[1..], narrowed)
  }

  /** Merging one trending narrowing: nothing for no ids, the join otherwise. */
  lemma NarrowSingle(ids: seq<int>, rows: seq<Status>)
    ensures Narrow([NarrowingFor(ids)], rows) == if ids == [] then [] else Join(rows, ids)
  {
    assert [NarrowingFor(ids)][1..] == [];
  }

  /** `Status.unscoped.kept`: the rows not discarded. */
  function Kept(table: seq<Status>): (r: seq<Status>)
    ensures forall s :: s in r <==> s in table && !s.discarded
  {
    Filter(table, (s: Status) => !s.discarded)
  }

  /** `trending_scope`: the ids of the chosen view with no limit, as a narrowing. */
  method TrendingScope(value: string, store: TrendStore) returns (n: Narrowing, ghost ids: seq<int>)
    ensures IsTop(SelectedView(store, value), -1, ids)
    ensures n == NarrowingFor(ids)
    ensures n == NoRows <==> SelectedView(store, value) == map[]
    ensures n.ByPosition? ==> Elems(n.ids) == SelectedView(store, value).Keys
  {
    var trending := store.CurrentlyTrendingIds(value == "allowed", -1);
    FullRanking(SelectedView(store, value), trending);
    ids := trending;
    if trending == [] {
      n := NoRows;
    } else {
      n := ByPosition(trending);
    }
  }

  /** `scope_for`: the trending narrowing for `trending`, an error for any other key. */
  method ScopeFor(key: string, value: string, store: TrendStore)
    returns (r: Result<Narrowing, string>, ghost ids: seq<int>)
    ensures key == "trending" ==> r.Ok? && IsTop(SelectedView(store, value), -1, ids) && r.value == NarrowingFor(ids)
    ensures key != "trending" ==> r == Err(UnknownFilter(key))
  {
    if key == "trending" {
      var n;
      n, ids := TrendingScope(value, store);
      r := Ok(n);
    } else {
      r := Err(UnknownFilter(key));
      ids := [];
    }
  }

  /**
   * One step of the parameter loop of `results`: nothing for `page` or a
   * blank value, otherwise the scope `scope_for` returns for the stripped value.
   */
  method MergeParam(p: Param, store: TrendStore)
    returns (r: Result<Option<Narrowing>, string>, ghost ids: seq<int>)
    ensures r.Err? <==> Unknown(p)
    ensures r.Err? ==> r.error == UnknownFilter(p.key)
    ensures !Accepted(p) ==> r == Ok(None)
    ensures Trending(p) ==> (r.Ok? && r.value == Some(NarrowingFor(ids)) &&
      IsTop(SelectedView(store, Strip(p.value)), -1, ids))
  {
    ids := [];
    if p.key != "page" && Present(p.value) {
      var narrowing;
      narrowing, ids := ScopeFor(p.key, Strip(p.value), store);
      if narrowing.Err? {
        r := Err(narrowing.error);
      } else {
        r := Ok(Some(narrowing.value));
      }
    } else {
      r := Ok(None);
    }
  }

  /** Position `i` holds the first parameter `scope_for` raises for. */
  predicate FirstUnknownAt(params: seq<Param>, i: int) {
    0 <= i < |params| && Unknown(params[i]) && forall j :: 0 <= j < i ==> !Unknown(params[j])
  }

  /** None of the first `i` parameters makes `scope_for` raise. */
  predicate NoneUnknown(params: seq<Param>, i: int)
    requires 0 <= i <= |params|
  {
    forall j :: 0 <= j < i ==> !Unknown(params[j])
  }

  /** Distinct keys admit one `trending` parameter at most. */
  lemma SingleTrending(params: seq<Param>, at: int)
    requires DistinctKeys(params)
    requires 0 <= at < |params| && Trending(params[at])
    ensures forall j :: 0 <= j < |params| && Trending(params[j]) ==> j == at
  {
  }

  /**
   * The state of the parameter loop after the first `i` parameters: `at` is
   * the position of the `trending` parameter met so far (-1 for none), and
   * `scope` holds its narrowing by the ranking `ids`.
   */
  ghost predicate ScopeSoFar(params: seq<Param>, i: int, at: int, scope: seq<Narrowing>, ids: seq<int>, store: TrendStore)
    reads store
  {
    -1 <= at < i <= |params| &&
    (at == -1 ==> scope == [] && forall j :: 0 <= j < i ==> !Trending(params[j])) &&
    (at != -1 ==> (Trending(params[at]) && scope == [NarrowingFor(ids)] &&
      IsTop(SelectedView(store, Strip(params[at].value)), -1, ids)))
  }

  /** Meeting the `trending` parameter: it is the only one, so its narrowing is the whole scope. */
  lemma ScopeTake(params: seq<Param>, i: int, at: int, scope: seq<Narrowing>, ids: seq<int>, store: TrendStore,
                  n: Narrowing, found: seq<int>)
    requires DistinctKeys(params)
    requires 0 <= i < |params| && ScopeSoFar(params, i, at, scope, ids, store)
    requires Trending(params[i]) && n == NarrowingFor(found)
    requires IsTop(SelectedView(store, Strip(params[i].value)), -1, found)
    ensures ScopeSoFar(params, i + 1, i, scope + [n], found, store)
  {
    // The keys are distinct, so no `trending` parameter came before.
    assert at == -1;
  }

  /** Passing over a parameter other than `trending` leaves the scope as it was. */
  lemma ScopeSkip(params: seq<Param>, i: int, at: int, scope: seq<Narrowing>, ids: seq<int>, store: TrendStore)
    requires 0 <= i < |params| && !Trending(params[i])
    requires ScopeSoFar(params, i, at, scope, ids, store)
    ensures ScopeSoFar(params, i + 1, at, scope, ids, store)
  {
  }

  /**
   * The parameter loop of `results`: the narrowings to merge, or the error
   * for the first unknown key. `page` and blank values are skipped.
   */
  method CollectScope(params: seq<Param>, store: TrendStore)
    returns (r: Result<seq<Narrowing>, string>, ghost at: int, ghost ids: seq<int>)
    requires DistinctKeys(params)
    ensures r.Err? ==> FirstUnknownAt(params, at) && r.error == UnknownFilter(params[at].key)
    ensures r.Ok? ==> forall j :: 0 <= j < |params| ==> !Unknown(params[j])
    ensures r.Ok? ==> ScopeSoFar(params, |params|, at, r.value, ids, store)
  {
    var scope: seq<Narrowing> := [];
    ids := [];
    at := -1;
    var i := 0;
    while i < |params|
      invariant 0 <= i <= |params|
      invariant NoneUnknown(params, i)
      invariant ScopeSoFar(params, i, at, scope, ids, store)
    {
      var merged;
      ghost var found;
      merged, found := MergeParam(params[i], store);
      if merged.Err? {
        at := i;
        r := Err(merged.error);
        assert FirstUnknownAt(params, at);
        return;
      }
      assert NoneUnknown(params, i + 1);
      if merged.value.Some? {
        ScopeTake(params, i, at, scope, ids, store, merged.value.value, found);
        scope := scope + [merged.value.value];
        ids := found;
        at := i;
      } else {
        ScopeSkip(params, i, at, scope, ids, store);
      }
      i := i + 1;
    }
    r := Ok(scope);
  }

  /**
   * `results`: the kept rows, narrowed by the trending ranking when a
   * `trending` parameter is present, in rank order; the first unknown key
   * raises "Unknown filter".
   */
  method Results(params: seq<Param>, table: seq<Status>, store: TrendStore)
    returns (r: Result<seq<Status>, string>, ghost ids: seq<int>)
    requires DistinctKeys(params)
    ensures r.Err? <==> exists i :: 0 <= i < |params| && Unknown(params[i])
    ensures r.Err? ==> exists i :: FirstUnknownAt(params, i) && r.error == UnknownFilter(params[i].key)
    ensures r.Ok? && (forall i :: 0 <= i < |params| ==> !Trending(params[i])) ==> r.value == Kept(table)
    ensures r.Ok? ==> forall i :: 0 <= i < |params| && Trending(params[i]) ==>
      IsTop(SelectedView(store, Strip(params[i].value)), -1, ids) &&
      r.value == (if ids == [] then [] else Join(Kept(table), ids))
  {
    var scope;
    ghost var at;
    scope, at, ids := CollectScope(params, store);
    if scope.Err? {
      r := Err(scope.error);
    } else {
      if at != -1 {
        SingleTrending(params, at);
      }
      NarrowSingle(ids, Kept(table));
      r := Ok(Narrow(scope.value, Kept(table)));
    }
  }
}
