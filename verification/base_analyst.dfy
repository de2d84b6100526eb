/** The shared machinery of every analyst: the repository name, the
    `created:` date qualifiers of a search, the degrade-to-empty fallback of
    a failed fetch, and the fetch-then-fold run over a task list.

    The concurrent gather is modelled by its meaning: every task is fetched
    once, `asyncio.gather` hands back the results in task order, and each
    result is folded into the analyst's state by `handle_response`. */
module BaseAnalyst {
  import opened Wrappers
  import opened JsonValues
  import opened Params
  import Text

  /** The API every request goes to. */
  const BaseApi := "https://api.github.com"

  /** The state tags of the search tasks. */
  const Open := "open"
  const Closed := "closed"
  const Old := "old"

  /** The qualifier key of every date filter. */
  const CreatedKey := "created:"

  /** The discriminator attached to a request: a tag string, or `None`. */
  type Tag = Option<string>

  /** Python truthiness of a tag. */
  predicate TagTruthy(t: Tag) {
    t.Some? && t.value != ""
  }

  /** A user date (a command-line string) takes part when it is truthy:
      neither `None` nor empty. */
  predicate DateGiven(d: Option<string>) {
    d.Some? && d.value != ""
  }

  /** `get_repository_name`: owner and repository joined by a slash. The owner
      the URL pattern accepts holds no slash, so the two parts can be read back. */
  function RepositoryName(username: string, repository: string): (r: string)
    ensures |r| == |username| + 1 + |repository|
  {
    username + "/" + repository
  }

  /** The owner the URL pattern accepts holds no slash, so the full name reads
      back as the owner and repository it was built from. */
  lemma RepositoryNameRoundTrip(username: string, repository: string)
    requires '/' !in username
    ensures Text.SplitOnce(RepositoryName(username, repository), "/") == Some((username, repository))
  {
    Text.SplitOnceJoin(username, "/", repository);
  }

  /** `get_dates`: the `created:` qualifier of one search. With `old` it is the
      stale cutoff `<bound_date`, whatever the user's window; otherwise it is
      built from the start and end dates that were given, and absent when
      neither was. */
  function GetDates(stale: bool, boundDate: string, start: Option<string>, end: Option<string>): (r: Params)
    ensures DistinctKeys(r) && |r| <= 1
    ensures forall i :: 0 <= i < |r| ==> r[i].0 == CreatedKey
    ensures stale ==> r == [(CreatedKey, "<" + boundDate)]
    ensures !stale ==> (|r| == 0 <==> !DateGiven(start) && !DateGiven(end))
  {
    if stale then
      [(CreatedKey, "<" + boundDate)]
    else if DateGiven(start) && DateGiven(end) then
      [(CreatedKey, start.value + ".." + end.value)]
    else if DateGiven(start) && !DateGiven(end) then
      [(CreatedKey, start.value + "..*")]
    else if !DateGiven(start) && DateGiven(end) then
      [(CreatedKey, "*.." + end.value)]
    else
      []
  }

  /** The range of creation dates a search is meant to cover. */
  datatype Window =
    | Before(bound: string)
    | Between(from: string, to: string)
    | From(from: string)
    | Until(to: string)

  /** The window intended for a search: the stale cutoff for the `old` search,
      else whatever part of the user's window was given, and none at all
      when no date was given. */
  function IntendedWindow(stale: bool, boundDate: string, start: Option<string>, end: Option<string>): Option<Window> {
    if stale then Some(Before(boundDate))
    else match (DateGiven(start), DateGiven(end))
      case (true, true) => Some(Between(start.value, end.value))
      case (true, false) => Some(From(start.value))
      case (false, true) => Some(Until(end.value))
      case (false, false) => None
  }

  /** Reads a `created:` value back as the search service interprets it:
      `a..b` is a range whose open side is `*`, `<d` is a cutoff. */
  function ParseCreated(v: string): Option<Window> {
    match Text.SplitOnce(v, "..")
    case Some(parts) =>
      if parts.0 == "*" then Some(Until(parts.1))
      else if parts.1 == "*" then Some(From(parts.0))
      else Some(Between(parts.0, parts.1))
    case None =>
      if |v| > 0 && v[0] == '<' then Some(Before(v[1..])) else None
  }

  /** A date in which `..` does not occur, so it cannot open a range of its own. */
  predicate NoRange(d: string) {
    Text.Lacks(d, "..")
  }

  /** A start date reads back from `start..end`: no `..` inside it, no
      trailing `.` that would run into the separator, and not the wildcard. */
  predicate StartDate(d: string) {
    NoRange(d) && d != "*" && (|d| == 0 || d[|d| - 1] != '.')
  }

  /** The separator is found right after a start date, not inside it. */
  lemma StartDateSplits(x: string, y: string)
    requires StartDate(x)
    ensures Text.SplitOnce(x + ".." + y, "..") == Some((x, y))
  {
    forall i | 0 <= i < |x| ensures !Text.StartsWith((x + "..")[i..], "..") {
      if i < |x| - 1 {
        assert !Text.StartsWith(x[i..], "..");
        assert (x + "..")[i..][..2] == x[i..][..2];
      } else {
        assert (x + "..")[i..][0] == x[|x| - 1];
      }
    }
    Text.SplitOnceJoinFirst(x, "..", y);
  }

  /** A cutoff built from a date without `..` has no range in it either. */
  lemma CutoffLacksRange(boundDate: string)
    requires NoRange(boundDate)
    ensures Text.SplitOnce("<" + boundDate, "..").None?
  {
    var v := "<" + boundDate;
    forall i | 0 <= i < |v| ensures !Text.StartsWith(v[i..], "..") {
      if i == 0 {
        assert v[i..][0] == '<';
      } else {
        assert v[i..] == boundDate[i - 1..];
      }
    }
    Text.SplitOnceLacking(v, "..");
  }

  /** `get_dates` encodes exactly the intended window: it omits the qualifier
      precisely when there is no window, and otherwise its value reads back
      as that window. Dates may contain single dots, as `dd.mm.yyyy` does. */
  lemma GetDatesRoundTrip(stale: bool, boundDate: string, start: Option<string>, end: Option<string>)
    requires stale ==> NoRange(boundDate)
    requires !stale && start.Some? ==> StartDate(start.value)
    requires !stale && end.Some? ==> end.value != "*"
    ensures |GetDates(stale, boundDate, start, end)| == 0 <==> IntendedWindow(stale, boundDate, start, end).None?
    ensures |GetDates(stale, boundDate, start, end)| == 1 ==>
              ParseCreated(GetDates(stale, boundDate, start, end)[0].1) == IntendedWindow(stale, boundDate, start, end)
  {
    var r := GetDates(stale, boundDate, start, end);
    if stale {
      var v := "<" + boundDate;
      CutoffLacksRange(boundDate);
      assert v[1..] == boundDate;
    } else if DateGiven(start) && DateGiven(end) {
      StartDateSplits(start.value, end.value);
    } else if DateGiven(start) {
      StartDateSplits(start.value, "*");
      assert start.value + "..*" == start.value + ".." + "*";
    } else if DateGiven(end) {
      Text.SplitOnceJoin("*", "..", end.value);
      assert "*.." + end.value == "*" + ".." + end.value;
    }
  }

  /** The dates the command line documents, `dd.mm.yyyy`, read back. */
  lemma DottedDatesRoundTrip()
    ensures ParseCreated(GetDates(false, "", Some("01.02.2020"), Some("31.12.2020"))[0].1)
              == Some(Between("01.02.2020", "31.12.2020"))
  {
    var d := "01.02.2020";
    forall i | 0 <= i < |d| ensures !Text.StartsWith(d[i..], "..") {
      if i < |d| - 1 {
        assert d[i..][..2] == [d[i], d[i + 1]];
        assert d[i] != '.' || d[i + 1] != '.' by {
          assert d == ['0', '1', '.', '0', '2', '.', '2', '0', '2', '0'];
        }
      }
    }
    GetDatesRoundTrip(false, "", Some(d), Some("31.12.2020"));
  }

  /** A request to make: its URL and the tag that routes its response. */
  datatype Task = Task(url: string, tag: Tag)

  /** What the network did with one request: answered with a decoded body, or
      raised a request exception (timeout, connection error, exhausted retries). */
  datatype Outcome = Responded(body: Json) | RequestFailed

  /** `fetch`: the body and the unchanged tag; a failed request degrades to an
      empty dict when the tag is truthy and to an empty list otherwise. */
  function Fetch(outcome: Outcome, tag: Tag): (r: (Json, Tag))
    ensures r.1 == tag
    ensures outcome.Responded? ==> r.0 == outcome.body
    ensures outcome.RequestFailed? ==> !Truthy(r.0)
    ensures outcome.RequestFailed? ==> (r.0.JObject? <==> TagTruthy(tag)) && (r.0.JArray? <==> !TagTruthy(tag))
  {
    match outcome
    case Responded(body) => (body, tag)
    case RequestFailed => if TagTruthy(tag) then (JObject([]), tag) else (JArray([]), tag)
  }

  /** The `(data, state)` pairs the gather hands to `handle_response`: one per
      task, in task order, each carrying its own task's tag. */
  function Gather(tasks: seq<Task>, outcomes: seq<Outcome>): (r: seq<(Json, Tag)>)
    requires |outcomes| == |tasks|
    ensures |r| == |tasks|
    ensures forall i :: 0 <= i < |r| ==> r[i].1 == tasks[i].tag
    ensures forall i :: 0 <= i < |r| && outcomes[i].Responded? ==> r[i].0 == outcomes[i].body
    ensures forall i :: 0 <= i < |r| && outcomes[i].RequestFailed? ==> !Truthy(r[i].0)
    ensures forall i :: 0 <= i < |r| ==> r[i] == Fetch(outcomes[i], tasks[i].tag)
  {
    if |tasks| == 0 then []
    else [Fetch(outcomes[0], tasks[0].tag)] + Gather(tasks[1..], outcomes[1..])
  }

  /** Folds the responses into the analyst's state in order; an exception
      raised by a handler ends the run. */
  function FoldResponses<S(!new)>(handle: (S, Json, Tag) -> Result<S, Fault>, s: S, responses: seq<(Json, Tag)>): (r: Result<S, Fault>)
    ensures |responses| == 0 ==> r == Success(s)
    ensures (forall st: S, i :: 0 <= i < |responses| ==> handle(st, responses[i].0, responses[i].1).Success?) ==> r.Success?
    ensures r.Failure? ==> exists st: S, i :: 0 <= i < |responses| && handle(st, responses[i].0, responses[i].1) == Failure(r.error)
    decreases |responses|
  {
    if |responses| == 0 then Success(s)
    else
      match handle(s, responses[0].0, responses[0].1)
      case Failure(e) => Failure(e)
      case Success(s') => FoldResponses(handle, s', responses[1..])
  }

  /** `get_data_asynchronous`: fetch every task, then hand each result to
      `handle_response`; with no tasks the state is left as it was. */
  function GetDataAsynchronous<S(!new)>(handle: (S, Json, Tag) -> Result<S, Fault>, s: S, tasks: seq<Task>, outcomes: seq<Outcome>): (r: Result<S, Fault>)
    requires |outcomes| == |tasks|
    ensures |tasks| == 0 ==> r == Success(s)
  {
    if |tasks| == 0 then Success(s)
    else FoldResponses(handle, s, Gather(tasks, outcomes))
  }

  /** A handler that only records its calls. */
  function Record(log: seq<(Json, Tag)>, data: Json, tag: Tag): Result<seq<(Json, Tag)>, Fault> {
    Success(log + [(data, tag)])
  }

  lemma {:induction false} FoldRecords(log: seq<(Json, Tag)>, responses: seq<(Json, Tag)>)
    ensures FoldResponses(Record, log, responses) == Success(log + responses)
    decreases |responses|
  {
    if |responses| == 0 {
      assert log + responses == log;
    } else {
      assert Record(log, responses[0].0, responses[0].1) == Success(log + [responses[0]]);
      assert FoldResponses(Record, log, responses) == FoldResponses(Record, log + [responses[0]], responses[1..]);
      FoldRecords(log + [responses[0]], responses[1..]);
      assert responses == [responses[0]] + responses[1..];
      assert (log + [responses[0]]) + responses[1..] == log + responses;
    }
  }

  /** Each task gives rise to exactly one `handle_response` call, carrying the
      fetched data and the task's own tag, in task order; no task, no call. */
  lemma EachTaskHandledOnce(tasks: seq<Task>, outcomes: seq<Outcome>)
    requires |outcomes| == |tasks|
    ensures GetDataAsynchronous(Record, [], tasks, outcomes) == Success(Gather(tasks, outcomes))
  {
    FoldRecords([], Gather(tasks, outcomes));
    assert [] + Gather(tasks, outcomes) == Gather(tasks, outcomes);
  }

  /** A run over one task is one `handle_response` call with that task's
      fetched data and tag. */
  lemma SingleTaskRun<S(!new)>(handle: (S, Json, Tag) -> Result<S, Fault>, s: S, task: Task, outcome: Outcome)
    ensures GetDataAsynchronous(handle, s, [task], [outcome]) == handle(s, Fetch(outcome, task.tag).0, task.tag)
  {
    var g := Gather([task], [outcome]);
    assert g == [Fetch(outcome, task.tag)];
    assert g[1..] == [];
    match handle(s, g[0].0, g[0].1)
    case Failure(e) =>
    case Success(s') =>
      assert FoldResponses(handle, s', g[1..]) == Success(s');
  }

  /** Folding a non-empty batch handles its first response first. */
  lemma FoldCons<S(!new)>(handle: (S, Json, Tag) -> Result<S, Fault>, s: S, x: (Json, Tag), rest: seq<(Json, Tag)>)
    ensures var first := handle(s, x.0, x.1);
            FoldResponses(handle, s, [x] + rest) ==
              if first.Failure? then Failure(first.error) else FoldResponses(handle, first.value, rest)
  {
    assert ([x] + rest)[0] == x;
    assert ([x] + rest)[1..] == rest;
  }

  /** Folding a batch in two parts is folding it at once. */
  lemma {:induction false} FoldAppend<S(!new)>(handle: (S, Json, Tag) -> Result<S, Fault>, s: S, a: seq<(Json, Tag)>, b: seq<(Json, Tag)>)
    ensures var front := FoldResponses(handle, s, a);
            FoldResponses(handle, s, a + b) ==
              if front.Failure? then Failure(front.error) else FoldResponses(handle, front.value, b)
    decreases |a|
  {
    if |a| == 0 {
      assert a + b == b;
    } else {
      assert (a + b)[0] == a[0];
      assert (a + b)[1..] == a[1..] + b;
      match handle(s, a[0].0, a[0].1)
      case Failure(e) =>
      case Success(s') => FoldAppend(handle, s', a[1..], b);
    }
  }
}
