/** `PullRequestAnalyst`: three searches over the repository's pull requests
    (open, closed, and still open but created before the stale cutoff),
    built from one query dictionary that every URL construction mutates in
    place, and the fold of the three answers into three counters. */
module PullRequestAnalyst {
  import opened Wrappers
  import opened JsonValues
  import opened Params
  import opened BaseAnalyst
  import Text

  /** What a pull-request analysis runs with. `boundDate` is the stale cutoff,
      thirty days before the run, as a `YYYY-MM-DD` text. */
  datatype Config = Config(
    username: string,
    repository: string,
    branch: string,
    startDate: Option<string>,
    endDate: Option<string>,
    boundDate: string)

  const RepoKey := "repo:"
  const IsKey := "is:"
  const BaseKey := "base:"
  const StateKey := "state:"

  /** The kind of item searched for. */
  const SearchedKind := "pr"

  /** The query dictionary's items right after the constructor, from an empty one. */
  function InitialItems(cfg: Config): Params {
    [(RepoKey, RepositoryName(cfg.username, cfg.repository)), (IsKey, SearchedKind), (BaseKey, cfg.branch)]
  }

  /** `set_query_params`: assigns the repository, the kind and the branch. */
  function SetQueryParams(m: Params, cfg: Config): (r: Params)
    ensures Lookup(r, RepoKey) == Some(RepositoryName(cfg.username, cfg.repository))
    ensures Lookup(r, IsKey) == Some(SearchedKind)
    ensures Lookup(r, BaseKey) == Some(cfg.branch)
    ensures forall k :: k != RepoKey && k != IsKey && k != BaseKey ==> Lookup(r, k) == Lookup(m, k)
    ensures DistinctKeys(m) ==> DistinctKeys(r)
    ensures m == [] ==> r == InitialItems(cfg)
  {
    var m1 := Set(m, RepoKey, RepositoryName(cfg.username, cfg.repository));
    var m2 := Set(m1, IsKey, SearchedKind);
    assert m == [] ==> Set(m2, BaseKey, cfg.branch) == InitialItems(cfg) by {
      if m == [] {
        SetNewKey(m1, IsKey, SearchedKind);
        SetNewKey(m2, BaseKey, cfg.branch);
      }
    }
    Set(m2, BaseKey, cfg.branch)
  }

  /** The search endpoint, before the query. */
  const SearchEndpoint := BaseApi + "/search/issues"

  /** The search URL for a query dictionary: the query reads back from
      everything after the first `?q=`, so different queries give different URLs. */
  function SearchUrl(m: Params): (r: string)
    ensures Text.SplitOnce(r, "?q=") == Some((SearchEndpoint, Joined(m)))
  {
    assert '?' !in SearchEndpoint;
    Text.SplitOnceJoin(SearchEndpoint, "?q=", Joined(m));
    SearchEndpoint + "?q=" + Joined(m)
  }

  /** The dates qualifier of one search under this configuration. */
  function Dates(cfg: Config, stale: bool): Params {
    GetDates(stale, cfg.boundDate, cfg.startDate, cfg.endDate)
  }

  /** `get_fetch_url`: assigns `state:` in the shared dictionary, merges the
      dates qualifier into it, and builds the URL from the result. Only
      `state:` and `created:` can change; `created:` keeps its old value when
      the search has no dates qualifier. */
  function GetFetchUrl(cfg: Config, m: Params, state: string, stale: bool): (r: (string, Params))
    ensures r.0 == SearchUrl(r.1)
    ensures Lookup(r.1, StateKey) == Some(state)
    ensures stale ==> Lookup(r.1, CreatedKey) == Some("<" + cfg.boundDate)
    ensures |Dates(cfg, stale)| == 0 ==> Lookup(r.1, CreatedKey) == Lookup(m, CreatedKey)
    ensures |Dates(cfg, stale)| == 1 ==> Lookup(r.1, CreatedKey) == Some(Dates(cfg, stale)[0].1)
    ensures forall k :: k != StateKey && k != CreatedKey ==> Lookup(r.1, k) == Lookup(m, k)
    ensures DistinctKeys(m) ==> DistinctKeys(r.1)
  {
    var withState := Set(m, StateKey, state);
    var dates := Dates(cfg, stale);
    var params := Update(withState, dates);
    assert Keys(dates) == if |dates| == 1 then [CreatedKey] else [] by {
      if |dates| == 1 {
        assert dates[1..] == [];
      }
    }
    (SearchUrl(params), params)
  }

  /** The dictionary as it stands when each of the three URLs is built. */
  function Snapshots(cfg: Config, m: Params): (r: seq<Params>)
    ensures |r| == 3
  {
    var s0 := GetFetchUrl(cfg, m, Open, false).1;
    var s1 := GetFetchUrl(cfg, s0, Closed, false).1;
    var s2 := GetFetchUrl(cfg, s1, Open, true).1;
    [s0, s1, s2]
  }

  /** `get_tasks_to_fetch`: the open, closed and old searches, in that order,
      and the dictionary they leave behind. */
  function GetTasksToFetch(cfg: Config, m: Params): (r: (seq<Task>, Params))
    ensures |r.0| == 3
    ensures r.0[0].tag == Some(Open) && r.0[1].tag == Some(Closed) && r.0[2].tag == Some(Old)
    ensures var s := Snapshots(cfg, m);
      r.0[0].url == SearchUrl(s[0]) && r.0[1].url == SearchUrl(s[1]) && r.0[2].url == SearchUrl(s[2]) && r.1 == s[2]
  {
    var openSearch := GetFetchUrl(cfg, m, Open, false);
    var closedSearch := GetFetchUrl(cfg, openSearch.1, Closed, false);
    var oldSearch := GetFetchUrl(cfg, closedSearch.1, Open, true);
    ([Task(openSearch.0, Some(Open)), Task(closedSearch.0, Some(Closed)), Task(oldSearch.0, Some(Old))], oldSearch.1)
  }

  /** What each search asks for. The open and old searches ask for open items,
      the closed one for closed items; the old search always carries the stale
      cutoff, overriding any user window; the open and closed searches carry
      the user window when one was given and otherwise whatever `created:`
      the dictionary held before. Nothing else in the dictionary changes. */
  lemma SnapshotQualifiers(cfg: Config, m: Params)
    ensures var s := Snapshots(cfg, m);
      && Lookup(s[0], StateKey) == Some(Open)
      && Lookup(s[1], StateKey) == Some(Closed)
      && Lookup(s[2], StateKey) == Some(Open)
      && Lookup(s[2], CreatedKey) == Some("<" + cfg.boundDate)
      && (|Dates(cfg, false)| == 1 ==>
            Lookup(s[0], CreatedKey) == Some(Dates(cfg, false)[0].1) && Lookup(s[1], CreatedKey) == Some(Dates(cfg, false)[0].1))
      && (|Dates(cfg, false)| == 0 ==>
            Lookup(s[0], CreatedKey) == Lookup(m, CreatedKey) && Lookup(s[1], CreatedKey) == Lookup(m, CreatedKey))
      && (forall k :: k != StateKey && k != CreatedKey ==>
            Lookup(s[0], k) == Lookup(m, k) && Lookup(s[1], k) == Lookup(m, k) && Lookup(s[2], k) == Lookup(m, k))
  {
  }

  /** The open and closed searches differ only in their `state:` value: same
      keys in the same order, same values elsewhere. */
  lemma OpenClosedDifferOnlyInState(cfg: Config, m: Params)
    ensures var s := Snapshots(cfg, m);
      && Keys(s[0]) == Keys(s[1])
      && forall k :: k != StateKey ==> Lookup(s[0], k) == Lookup(s[1], k)
  {
    var s := Snapshots(cfg, m);
    var withState := Set(s[0], StateKey, Closed);
    assert StateKey in Keys(s[0]);
    assert Keys(withState) == Keys(s[0]);
    var dates := Dates(cfg, false);
    if |dates| == 1 {
      assert Keys(dates) == [CreatedKey];
      assert CreatedKey in Keys(s[0]);
    } else {
      assert Keys(dates) == [];
    }
  }

  lemma InitialKeys(cfg: Config)
    ensures Keys(InitialItems(cfg)) == [RepoKey, IsKey, BaseKey]
  {
    var m := InitialItems(cfg);
    assert m[1..][1..][1..] == [];
    assert Keys(m[1..][1..]) == [BaseKey];
    assert Keys(m[1..]) == [IsKey, BaseKey];
  }

  /** Dictionary items that hold neither `state:` nor `created:`. */
  predicate Untouched(base: Params) {
    StateKey !in Keys(base) && CreatedKey !in Keys(base)
  }

  lemma KeysOfStateItem(base: Params, state: string)
    ensures Keys(base + [(StateKey, state)]) == Keys(base) + [StateKey]
  {
    KeysAppend(base, [(StateKey, state)]);
    assert [(StateKey, state)][1..] == [];
  }

  /** The first URL built on such items appends `state:` and then the dates qualifier. */
  lemma FirstUrl(cfg: Config, base: Params, state: string, stale: bool)
    requires Untouched(base)
    ensures |Dates(cfg, stale)| == 0 ==> GetFetchUrl(cfg, base, state, stale).1 == base + [(StateKey, state)]
    ensures |Dates(cfg, stale)| == 1 ==>
              GetFetchUrl(cfg, base, state, stale).1 == base + [(StateKey, state), (CreatedKey, Dates(cfg, stale)[0].1)]
  {
    SetNewKey(base, StateKey, state);
    var dates := Dates(cfg, stale);
    if |dates| == 1 {
      var w := dates[0].1;
      assert dates == [(CreatedKey, w)];
      UpdateSingle(base + [(StateKey, state)], CreatedKey, w);
      KeysOfStateItem(base, state);
      SetNewKey(base + [(StateKey, state)], CreatedKey, w);
      assert base + [(StateKey, state)] + [(CreatedKey, w)] == base + [(StateKey, state), (CreatedKey, w)];
    }
  }

  /** A later URL on items already holding `state:` rewrites it in place and
      appends the dates qualifier. */
  lemma LaterUrlAfterState(cfg: Config, base: Params, previous: string, state: string, stale: bool)
    requires Untouched(base)
    ensures |Dates(cfg, stale)| == 0 ==>
              GetFetchUrl(cfg, base + [(StateKey, previous)], state, stale).1 == base + [(StateKey, state)]
    ensures |Dates(cfg, stale)| == 1 ==>
              GetFetchUrl(cfg, base + [(StateKey, previous)], state, stale).1
                == base + [(StateKey, state), (CreatedKey, Dates(cfg, stale)[0].1)]
  {
    SetExistingKey(base, StateKey, previous, [], state);
    assert base + [(StateKey, previous)] + [] == base + [(StateKey, previous)];
    assert base + [(StateKey, state)] + [] == base + [(StateKey, state)];
    var dates := Dates(cfg, stale);
    if |dates| == 1 {
      var w := dates[0].1;
      assert dates == [(CreatedKey, w)];
      UpdateSingle(base + [(StateKey, state)], CreatedKey, w);
      KeysOfStateItem(base, state);
      SetNewKey(base + [(StateKey, state)], CreatedKey, w);
      assert base + [(StateKey, state)] + [(CreatedKey, w)] == base + [(StateKey, state), (CreatedKey, w)];
    }
  }

  /** A later URL on items holding `state:` and `created:` rewrites both in
      place when the search has a dates qualifier. */
  lemma LaterUrlAfterWindow(cfg: Config, base: Params, previous: string, window: string, state: string, stale: bool)
    requires Untouched(base) && |Dates(cfg, stale)| == 1
    ensures GetFetchUrl(cfg, base + [(StateKey, previous), (CreatedKey, window)], state, stale).1
              == base + [(StateKey, state), (CreatedKey, Dates(cfg, stale)[0].1)]
  {
    var w := Dates(cfg, stale)[0].1;
    assert Dates(cfg, stale) == [(CreatedKey, w)];
    SetStateBeforeWindow(base, previous, window, state);
    SetWindowAfterState(base, state, window, w);
  }

  lemma SetStateBeforeWindow(base: Params, previous: string, window: string, state: string)
    requires Untouched(base)
    ensures Set(base + [(StateKey, previous), (CreatedKey, window)], StateKey, state) == base + [(StateKey, state), (CreatedKey, window)]
  {
    assert base + [(StateKey, previous), (CreatedKey, window)] == base + [(StateKey, previous)] + [(CreatedKey, window)];
    SetExistingKey(base, StateKey, previous, [(CreatedKey, window)], state);
    assert base + [(StateKey, state)] + [(CreatedKey, window)] == base + [(StateKey, state), (CreatedKey, window)];
  }

  lemma SetWindowAfterState(base: Params, state: string, window: string, w: string)
    requires Untouched(base)
    ensures Update(base + [(StateKey, state), (CreatedKey, window)], [(CreatedKey, w)]) == base + [(StateKey, state), (CreatedKey, w)]
  {
    var front := base + [(StateKey, state)];
    var before := base + [(StateKey, state), (CreatedKey, window)];
    assert front + [(CreatedKey, window)] + [] == before;
    assert front + [(CreatedKey, w)] + [] == base + [(StateKey, state), (CreatedKey, w)];
    UpdateSingle(before, CreatedKey, w);
    KeysOfStateItem(base, state);
    SetExistingKey(front, CreatedKey, window, [], w);
  }

  /** From the dictionary the constructor leaves, with no user dates: the
      open and closed searches carry no `created:` qualifier and differ only
      in `state:`, and the old search appends `created:<bound`. */
  lemma FreshTasksWithoutDates(cfg: Config)
    requires !DateGiven(cfg.startDate) && !DateGiven(cfg.endDate)
    ensures var base := InitialItems(cfg);
      GetTasksToFetch(cfg, SetQueryParams([], cfg)).0 == [
        Task(SearchUrl(base + [(StateKey, Open)]), Some(Open)),
        Task(SearchUrl(base + [(StateKey, Closed)]), Some(Closed)),
        Task(SearchUrl(base + [(StateKey, Open), (CreatedKey, "<" + cfg.boundDate)]), Some(Old))]
  {
    var base := InitialItems(cfg);
    InitialKeys(cfg);
    assert Untouched(base);
    FirstUrl(cfg, base, Open, false);
    LaterUrlAfterState(cfg, base, Open, Closed, false);
    LaterUrlAfterState(cfg, base, Closed, Open, true);
  }

  /** From the dictionary the constructor leaves, with a user window `w`: the
      open and closed searches carry `created:w` and differ only in `state:`;
      the old search replaces the window by `created:<bound`. */
  lemma FreshTasksWithDates(cfg: Config)
    requires DateGiven(cfg.startDate) || DateGiven(cfg.endDate)
    ensures var base := InitialItems(cfg);
      var w := Dates(cfg, false)[0].1;
      GetTasksToFetch(cfg, SetQueryParams([], cfg)).0 == [
        Task(SearchUrl(base + [(StateKey, Open), (CreatedKey, w)]), Some(Open)),
        Task(SearchUrl(base + [(StateKey, Closed), (CreatedKey, w)]), Some(Closed)),
        Task(SearchUrl(base + [(StateKey, Open), (CreatedKey, "<" + cfg.boundDate)]), Some(Old))]
  {
    var base := InitialItems(cfg);
    var w := Dates(cfg, false)[0].1;
    InitialKeys(cfg);
    assert Untouched(base);
    FirstUrl(cfg, base, Open, false);
    LaterUrlAfterWindow(cfg, base, Open, w, Closed, false);
    LaterUrlAfterWindow(cfg, base, Closed, w, Open, true);
  }

  /** The dictionary is shared, so a second round of tasks without user
      dates would inherit the stale cutoff in its open and closed searches. */
  lemma RepeatedTasksInheritCutoff(cfg: Config, m: Params)
    requires !DateGiven(cfg.startDate) && !DateGiven(cfg.endDate)
    ensures var again := Snapshots(cfg, GetTasksToFetch(cfg, m).1);
      Lookup(again[0], CreatedKey) == Some("<" + cfg.boundDate)
      && Lookup(again[1], CreatedKey) == Some("<" + cfg.boundDate)
  {
    SnapshotQualifiers(cfg, m);
    SnapshotQualifiers(cfg, GetTasksToFetch(cfg, m).1);
  }

  /** The three counters; each holds whatever `total_count` was, or `"N/A"`. */
  datatype Counters = Counters(open: Json, closed: Json, stale: Json)

  /** The text stored when a body has no `total_count`. */
  const NotAvailable := JStr("N/A")

  /** The counters before any response: the class defaults, zero. */
  const InitialCounters := Counters(JNum(0), JNum(0), JNum(0))

  /** `data.get('total_count', 'N/A')`: only a dict has `.get`. */
  function TotalCount(data: Json): (r: Result<Json, Fault>)
    ensures r.Success? <==> data.JObject?
    ensures r.Failure? ==> r.error == AttributeError
    ensures data.JObject? && Get(data.fields, "total_count").None? ==> r == Success(NotAvailable)
    ensures data.JObject? && Get(data.fields, "total_count").Some? ==> r == Success(Get(data.fields, "total_count").value)
  {
    if data.JObject? then Success(Get(data.fields, "total_count").GetOr(NotAvailable)) else Failure(AttributeError)
  }

  /** `handle_response`: the answer of a search goes into the counter its tag
      names, and into no other; any other tag changes nothing. */
  function HandleResponse(c: Counters, data: Json, tag: Tag): (r: Result<Counters, Fault>)
    ensures tag != Some(Open) && tag != Some(Closed) && tag != Some(Old) ==> r == Success(c)
    ensures tag == Some(Open) ==> r == (if data.JObject? then Success(c.(open := TotalCount(data).value)) else Failure(AttributeError))
    ensures tag == Some(Closed) ==> r == (if data.JObject? then Success(c.(closed := TotalCount(data).value)) else Failure(AttributeError))
    ensures tag == Some(Old) ==> r == (if data.JObject? then Success(c.(stale := TotalCount(data).value)) else Failure(AttributeError))
  {
    if tag == Some(Open) then
      var v :- TotalCount(data);
      Success(c.(open := v))
    else if tag == Some(Closed) then
      var v :- TotalCount(data);
      Success(c.(closed := v))
    else if tag == Some(Old) then
      var v :- TotalCount(data);
      Success(c.(stale := v))
    else
      Success(c)
  }

  /** Responses with different tags can be folded in either order: the fold
      does not depend on the order the gather finishes in. */
  lemma HandleCommutes(c: Counters, d1: Json, t1: Tag, d2: Json, t2: Tag)
    requires t1 != t2
    ensures FoldResponses(HandleResponse, c, [(d1, t1), (d2, t2)]) == FoldResponses(HandleResponse, c, [(d2, t2), (d1, t1)])
  {
    var a, b := [(d1, t1), (d2, t2)], [(d2, t2), (d1, t1)];
    assert a[1..] == [(d2, t2)] && a[1..][1..] == [];
    assert b[1..] == [(d1, t1)] && b[1..][1..] == [];
    match HandleResponse(c, d1, t1) {
      case Failure(e) =>
        match HandleResponse(c, d2, t2) {
          case Failure(e') =>
          case Success(c2) => assert HandleResponse(c2, d1, t1).Failure?;
        }
      case Success(c1) =>
        match HandleResponse(c, d2, t2) {
          case Failure(e') => assert HandleResponse(c1, d2, t2).Failure?;
          case Success(c2) => assert HandleResponse(c1, d2, t2).Success? && HandleResponse(c2, d1, t1).Success?;
        }
    }
  }

  /** The count a search's outcome reports, when it reports one: its
      `total_count`, or `"N/A"` for a body without one or a failed request. */
  function Reported(o: Outcome, tag: Tag): (r: Result<Json, Fault>)
    requires TagTruthy(tag)
    ensures o.RequestFailed? ==> r == Success(NotAvailable)
    ensures o.Responded? ==> (r.Success? <==> o.body.JObject?)
  {
    TotalCount(Fetch(o, tag).0)
  }

  /** Folding the three searches' answers, tagged open, closed and old, from any counters. */
  lemma FoldThree(c: Counters, d0: Json, d1: Json, d2: Json)
    ensures var r := FoldResponses(HandleResponse, c, [(d0, Some(Open)), (d1, Some(Closed)), (d2, Some(Old))]);
      if d0.JObject? && d1.JObject? && d2.JObject? then
        r == Success(Counters(TotalCount(d0).value, TotalCount(d1).value, TotalCount(d2).value))
      else
        r == Failure(AttributeError)
  {
    var x0, x1, x2 := (d0, Some(Open)), (d1, Some(Closed)), (d2, Some(Old));
    assert [x0, x1, x2] == [x0] + ([x1] + [x2]);
    FoldCons(HandleResponse, c, x0, [x1] + [x2]);
    if d0.JObject? {
      var c1 := c.(open := TotalCount(d0).value);
      FoldCons(HandleResponse, c1, x1, [x2]);
      if d1.JObject? {
        var c2 := c1.(closed := TotalCount(d1).value);
        FoldCons(HandleResponse, c2, x2, []);
        assert [x2] == [x2] + [];
        if d2.JObject? {
          assert FoldResponses(HandleResponse, c2.(stale := TotalCount(d2).value), []) == Success(c2.(stale := TotalCount(d2).value));
        }
      }
    }
  }

  lemma GatherThree(cfg: Config, m: Params, outcomes: seq<Outcome>)
    requires |outcomes| == 3
    ensures Gather(GetTasksToFetch(cfg, m).0, outcomes)
              == [(Fetch(outcomes[0], Some(Open)).0, Some(Open)),
                  (Fetch(outcomes[1], Some(Closed)).0, Some(Closed)),
                  (Fetch(outcomes[2], Some(Old)).0, Some(Old))]
  {
    var tasks := GetTasksToFetch(cfg, m).0;
    var g := Gather(tasks, outcomes);
    assert |g| == 3;
    assert g[0] == Fetch(outcomes[0], tasks[0].tag);
    assert g[1] == Fetch(outcomes[1], tasks[1].tag);
    assert g[2] == Fetch(outcomes[2], tasks[2].tag);
  }

  /** A pull-request run: the three searches are fetched and their answers
      folded into the initial counters. */
  function Run(cfg: Config, m: Params, outcomes: seq<Outcome>): Result<Counters, Fault>
    requires |outcomes| == 3
  {
    GetDataAsynchronous(HandleResponse, InitialCounters, GetTasksToFetch(cfg, m).0, outcomes)
  }

  /** Each counter is overwritten by its own search's report, so the initial
      zeros play no part; a failed search reports `"N/A"`; a search answered
      by anything but an object ends the run. */
  lemma RunReports(cfg: Config, m: Params, outcomes: seq<Outcome>)
    requires |outcomes| == 3
    ensures var open, closed, stale := Reported(outcomes[0], Some(Open)), Reported(outcomes[1], Some(Closed)), Reported(outcomes[2], Some(Old));
      if open.Success? && closed.Success? && stale.Success? then
        Run(cfg, m, outcomes) == Success(Counters(open.value, closed.value, stale.value))
      else
        Run(cfg, m, outcomes) == Failure(AttributeError)
  {
    GatherThree(cfg, m, outcomes);
    FoldThree(InitialCounters, Fetch(outcomes[0], Some(Open)).0, Fetch(outcomes[1], Some(Closed)).0, Fetch(outcomes[2], Some(Old)).0);
  }

  /** When every search fails, every counter reads `"N/A"`. */
  lemma RunAllFailed(cfg: Config, m: Params)
    ensures Run(cfg, m, [RequestFailed, RequestFailed, RequestFailed]) == Success(Counters(NotAvailable, NotAvailable, NotAvailable))
  {
    RunReports(cfg, m, [RequestFailed, RequestFailed, RequestFailed]);
  }
}
