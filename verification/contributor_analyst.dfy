/** `ContributorAnalyst`: one request for the weekly commit statistics, and
    the fold of its body into the leaderboard of the most active
    contributors within the user's date window. */
module ContributorAnalyst {
  import opened Wrappers
  import opened JsonValues
  import opened Ranking
  import BaseAnalyst

  /** One bucket of the weekly statistics: the week's start `w` (a Unix
      timestamp) and the number of commits `c` made in it. */
  datatype Week = Week(w: int, c: int)

  /** A date bound as a timestamp, `None` when the user gave no date. */
  type Bound = Option<int>

  /** A bound takes part in the filter when it is truthy, so a zero timestamp
      counts as absent. */
  predicate BoundGiven(b: Bound) {
    b.Some? && b.value != 0
  }

  /** `filter_weeks`: with both bounds a week counts when it starts in
      `[start, end)`, with one bound when it is on the bound's side of it
      (both sides inclusive), and in all three cases only when commits were
      made; with no bound any week with a positive timestamp counts,
      whatever its commits. */
  predicate FilterWeeks(week: Week, start: Bound, end: Bound) {
    if BoundGiven(start) && BoundGiven(end) then start.value <= week.w < end.value && week.c > 0
    else if BoundGiven(start) && !BoundGiven(end) then week.w >= start.value && week.c > 0
    else if !BoundGiven(start) && BoundGiven(end) then week.w <= end.value && week.c > 0
    else week.w > 0
  }

  /** The sum of `c` over the weeks that pass the filter. */
  function CommitCount(weeks: seq<Week>, start: Bound, end: Bound): (r: int)
    ensures (BoundGiven(start) || BoundGiven(end)) ==> r >= 0
    ensures (BoundGiven(start) || BoundGiven(end)) ==>
              (r == 0 <==> forall i :: 0 <= i < |weeks| ==> !FilterWeeks(weeks[i], start, end))
  {
    if |weeks| == 0 then 0
    else (if FilterWeeks(weeks[0], start, end) then weeks[0].c else 0) + CommitCount(weeks[1..], start, end)
  }

  /** Counting commits distributes over concatenated week lists, as the
      `reduce` over the filtered weeks does. */
  lemma {:induction false} CommitCountAppend(a: seq<Week>, b: seq<Week>, start: Bound, end: Bound)
    ensures CommitCount(a + b, start, end) == CommitCount(a, start, end) + CommitCount(b, start, end)
    decreases |a|
  {
    if |a| == 0 {
      assert a + b == b;
    } else {
      assert (a + b)[0] == a[0];
      assert (a + b)[1..] == a[1..] + b;
      CommitCountAppend(a[1..], b, start, end);
    }
  }

  /** The window `[start, mid)` and the open window from `mid` together count
      exactly what the open window from `start` counts. */
  lemma {:induction false} WindowSplit(weeks: seq<Week>, start: int, mid: int)
    requires start != 0 && mid != 0 && start <= mid
    ensures CommitCount(weeks, Some(start), Some(mid)) + CommitCount(weeks, Some(mid), None)
              == CommitCount(weeks, Some(start), None)
    decreases |weeks|
  {
    if |weeks| > 0 {
      WindowSplit(weeks[1..], start, mid);
    }
  }

  /** The end bound alone is inclusive while together with a start it is
      exclusive: a week starting exactly at `end` counts in the first case
      and not in the second. */
  lemma EndBoundInclusivity(start: int, end: int, c: int)
    requires start != 0 && end != 0 && start <= end && c > 0
    ensures CommitCount([Week(end, c)], None, Some(end)) == c
    ensures CommitCount([Week(end, c)], Some(start), Some(end)) == 0
  {
    assert [Week(end, c)][1..] == [];
  }

  /** With no date window every week with a positive timestamp counts, even
      one without commits: weeks (100, 5), (200, 0), (300, 3) sum to 8. */
  lemma UnboundedExample()
    ensures CommitCount([Week(100, 5), Week(200, 0), Week(300, 3)], None, None) == 8
  {
    var ws := [Week(100, 5), Week(200, 0), Week(300, 3)];
    assert ws[1..] == [Week(200, 0), Week(300, 3)];
    assert ws[1..][1..] == [Week(300, 3)];
    assert ws[1..][1..][1..] == [];
  }

  /** How the four cases of the filter relate: with both bounds a week must
      pass each one-sided filter and not start exactly at `end`; a zero
      bound is no bound; any bound demands commits; no bound demands only a
      positive timestamp. */
  lemma FilterWeeksCases(week: Week, start: int, end: int)
    requires start != 0 && end != 0
    ensures FilterWeeks(week, Some(start), Some(end)) <==>
              FilterWeeks(week, Some(start), None) && FilterWeeks(week, None, Some(end)) && week.w != end
    ensures FilterWeeks(week, Some(0), Some(end)) == FilterWeeks(week, None, Some(end))
    ensures FilterWeeks(week, Some(start), Some(0)) == FilterWeeks(week, Some(start), None)
    ensures FilterWeeks(week, Some(start), None) || FilterWeeks(week, None, Some(end)) ==> week.c > 0
    ensures FilterWeeks(week, None, None) <==> week.w > 0
  {
  }

  /** A contributor entry of the statistics: the login found under `author`
      and the weekly buckets. */
  datatype Contributor = Contributor(login: Json, weeks: seq<Week>)

  /** The login recorded when the author has none. */
  const DefaultLogin := JStr("Not defined")

  /** Reads one weekly bucket: `item['w']` and `item['c']`. */
  function DecodeWeek(j: Json): (r: Result<Week, Fault>)
    ensures r.Success? ==> j.JObject? && Get(j.fields, "w") == Some(JNum(r.value.w))
                                     && Get(j.fields, "c") == Some(JNum(r.value.c))
  {
    if !j.JObject? then Failure(TypeError)
    else
      var w :- Field(j.fields, "w");
      var wn :- Number(w);
      var c :- Field(j.fields, "c");
      var cn :- Number(c);
      Success(Week(wn, cn))
  }

  /** Reads every weekly bucket in order; the first bucket that cannot be
      read decides the error. */
  function DecodeWeeks(items: seq<Json>): (r: Result<seq<Week>, Fault>)
    ensures r.Success? <==> forall i :: 0 <= i < |items| ==> DecodeWeek(items[i]).Success?
    ensures r.Success? ==> |r.value| == |items| && forall i :: 0 <= i < |items| ==> DecodeWeek(items[i]) == Success(r.value[i])
    ensures r.Failure? ==> exists i :: 0 <= i < |items| && DecodeWeek(items[i]) == Failure(r.error)
  {
    MapAll(DecodeWeek, items)
  }

  /** Reads one contributor: `contributor['weeks']`, then
      `contributor['author'].get('login', 'Not defined')`. */
  function DecodeContributor(j: Json): (r: Result<Contributor, Fault>)
    ensures !j.JObject? ==> r == Failure(TypeError)
    ensures r.Success? ==>
              && j.JObject?
              && Get(j.fields, "weeks").Some? && Get(j.fields, "weeks").value.JArray?
              && DecodeWeeks(Get(j.fields, "weeks").value.items) == Success(r.value.weeks)
              && Get(j.fields, "author").Some? && Get(j.fields, "author").value.JObject?
              && r.value.login == Get(Get(j.fields, "author").value.fields, "login").GetOr(DefaultLogin)
  {
    if !j.JObject? then Failure(TypeError)
    else
      var weeksJson :- Field(j.fields, "weeks");
      if !weeksJson.JArray? then Failure(TypeError)
      else
        var weeks :- DecodeWeeks(weeksJson.items);
        var author :- Field(j.fields, "author");
        if !author.JObject? then Failure(AttributeError)
        else Success(Contributor(Get(author.fields, "login").GetOr(DefaultLogin), weeks))
  }

  /** Reads every contributor in order; the first that cannot be read
      decides the error. */
  function DecodeContributors(items: seq<Json>): (r: Result<seq<Contributor>, Fault>)
    ensures r.Success? <==> forall i :: 0 <= i < |items| ==> DecodeContributor(items[i]).Success?
    ensures r.Success? ==> |r.value| == |items| && forall i :: 0 <= i < |items| ==> DecodeContributor(items[i]) == Success(r.value[i])
    ensures r.Failure? ==> exists i :: 0 <= i < |items| && DecodeContributor(items[i]) == Failure(r.error)
  {
    MapAll(DecodeContributor, items)
  }

  /** The statistics body the service would send for the given contributors. */
  function EncodeWeeks(weeks: seq<Week>): (r: seq<Json>)
    ensures |r| == |weeks|
  {
    if |weeks| == 0 then []
    else [JObject([("w", JNum(weeks[0].w)), ("c", JNum(weeks[0].c))])] + EncodeWeeks(weeks[1..])
  }

  function EncodeContributors(cs: seq<Contributor>): (r: seq<Json>)
    ensures |r| == |cs|
  {
    if |cs| == 0 then []
    else
      [JObject([("author", JObject([("login", cs[0].login)])), ("weeks", JArray(EncodeWeeks(cs[0].weeks)))])]
        + EncodeContributors(cs[1..])
  }

  /** Looking up either member of a two-member object with distinct keys. */
  lemma GetPair(k1: string, v1: Json, k2: string, v2: Json)
    requires k1 != k2
    ensures Get([(k1, v1), (k2, v2)], k1) == Some(v1)
    ensures Get([(k1, v1), (k2, v2)], k2) == Some(v2)
  {
    assert [(k1, v1), (k2, v2)][..1] == [(k1, v1)];
    assert [(k1, v1)][..0] == [];
  }

  lemma DecodeEncodedWeek(wk: Week)
    ensures DecodeWeek(JObject([("w", JNum(wk.w)), ("c", JNum(wk.c))])) == Success(wk)
  {
    GetPair("w", JNum(wk.w), "c", JNum(wk.c));
  }

  lemma {:induction false} DecodeEncodeWeeks(weeks: seq<Week>)
    ensures DecodeWeeks(EncodeWeeks(weeks)) == Success(weeks)
    decreases |weeks|
  {
    if |weeks| > 0 {
      var items := EncodeWeeks(weeks);
      assert items[1..] == EncodeWeeks(weeks[1..]);
      DecodeEncodeWeeks(weeks[1..]);
      DecodeEncodedWeek(weeks[0]);
      assert DecodeWeek(items[0]) == Success(weeks[0]);
      assert DecodeWeeks(items[1..]) == Success(weeks[1..]);
      assert weeks == [weeks[0]] + weeks[1..];
    }
  }

  lemma DecodeEncodedContributor(c: Contributor)
    ensures DecodeContributor(JObject([("author", JObject([("login", c.login)])), ("weeks", JArray(EncodeWeeks(c.weeks)))]))
              == Success(c)
  {
    GetPair("author", JObject([("login", c.login)]), "weeks", JArray(EncodeWeeks(c.weeks)));
    DecodeEncodeWeeks(c.weeks);
    assert [("login", c.login)][..0] == [];
    assert Get([("login", c.login)], "login") == Some(c.login);
  }

  /** Decoding a body the service sends gives back the contributors it describes. */
  lemma {:induction false} DecodeEncodeContributors(cs: seq<Contributor>)
    ensures DecodeContributors(EncodeContributors(cs)) == Success(cs)
    decreases |cs|
  {
    if |cs| > 0 {
      var items := EncodeContributors(cs);
      assert items[1..] == EncodeContributors(cs[1..]);
      DecodeEncodeContributors(cs[1..]);
      DecodeEncodedContributor(cs[0]);
      DecodeContributorsCons(items, cs[0], cs[1..]);
      assert cs == [cs[0]] + cs[1..];
    }
  }

  lemma DecodeContributorsCons(items: seq<Json>, c: Contributor, rest: seq<Contributor>)
    requires |items| > 0
    requires DecodeContributor(items[0]) == Success(c)
    requires DecodeContributors(items[1..]) == Success(rest)
    ensures DecodeContributors(items) == Success([c] + rest)
  {
  }

  /** One leaderboard entry per contributor, in input order. */
  function Tally(cs: seq<Contributor>, start: Bound, end: Bound): (r: seq<Entry>)
    ensures |r| == |cs|
    ensures forall i :: 0 <= i < |cs| ==> r[i].login == cs[i].login
    ensures forall i :: 0 <= i < |cs| ==> r[i].commitCount == CommitCount(cs[i].weeks, start, end)
  {
    if |cs| == 0 then []
    else [Entry(cs[0].login, CommitCount(cs[0].weeks, start, end))] + Tally(cs[1..], start, end)
  }

  /** `__parse_result`: a falsy body resets the leaderboard to empty; a list
      is decoded, tallied and ranked; any other body raises. */
  function ParseResult(data: Json, start: Bound, end: Bound): (r: Result<seq<Entry>, Fault>)
    ensures !Truthy(data) ==> r == Success([])
    ensures Truthy(data) && !data.JArray? ==> r == Failure(TypeError)
    ensures r.Success? ==> Ranked(r.value)
  {
    if !Truthy(data) then Success([])
    else if !data.JArray? then Failure(TypeError)
    else
      var cs :- DecodeContributors(data.items);
      Success(Rank(Tally(cs, start, end)))
  }

  /** A weekly bucket carrying the week `wk`, whatever other members (the
      additions `a`, the deletions `d`, ...) it has. */
  predicate DescribesWeek(j: Json, wk: Week) {
    j.JObject? && Get(j.fields, "w") == Some(JNum(wk.w)) && Get(j.fields, "c") == Some(JNum(wk.c))
  }

  predicate DescribesWeeks(items: seq<Json>, weeks: seq<Week>) {
    |items| == |weeks| && forall i :: 0 <= i < |items| ==> DescribesWeek(items[i], weeks[i])
  }

  /** A contributor object carrying `c`: its weekly buckets under `weeks`,
      and an author object whose `login` is `c.login`, or which has no login
      when `c.login` is the default. Other members, such as `total` or the
      author's `id`, play no part. */
  predicate Describes(j: Json, c: Contributor) {
    && j.JObject?
    && Get(j.fields, "weeks").Some? && Get(j.fields, "weeks").value.JArray?
    && DescribesWeeks(Get(j.fields, "weeks").value.items, c.weeks)
    && Get(j.fields, "author").Some? && Get(j.fields, "author").value.JObject?
    && Get(Get(j.fields, "author").value.fields, "login").GetOr(DefaultLogin) == c.login
  }

  predicate DescribesAll(items: seq<Json>, cs: seq<Contributor>) {
    |items| == |cs| && forall i :: 0 <= i < |items| ==> Describes(items[i], cs[i])
  }

  lemma DecodeDescribedWeeks(items: seq<Json>, weeks: seq<Week>)
    requires DescribesWeeks(items, weeks)
    ensures DecodeWeeks(items) == Success(weeks)
  {
    forall i | 0 <= i < |items| ensures DecodeWeek(items[i]) == Success(weeks[i]) {
      assert DescribesWeek(items[i], weeks[i]);
    }
    var r := DecodeWeeks(items);
    assert r.Success?;
    assert r.value == weeks;
  }

  /** A contributor object is read as the contributor it carries, extra
      members notwithstanding. */
  lemma DecodeDescribedContributor(j: Json, c: Contributor)
    requires Describes(j, c)
    ensures DecodeContributor(j) == Success(c)
  {
    DecodeDescribedWeeks(Get(j.fields, "weeks").value.items, c.weeks);
  }

  lemma DecodeDescribedContributors(items: seq<Json>, cs: seq<Contributor>)
    requires DescribesAll(items, cs)
    ensures DecodeContributors(items) == Success(cs)
  {
    forall i | 0 <= i < |items| ensures DecodeContributor(items[i]) == Success(cs[i]) {
      DecodeDescribedContributor(items[i], cs[i]);
    }
    var r := DecodeContributors(items);
    assert r.Success?;
    assert r.value == cs;
  }

  /** An author without a login is recorded under the default login. */
  lemma MissingLoginDefaults(fields: seq<(string, Json)>, authorFields: seq<(string, Json)>, weeks: seq<Week>)
    requires Get(fields, "weeks").Some? && Get(fields, "weeks").value.JArray?
    requires DescribesWeeks(Get(fields, "weeks").value.items, weeks)
    requires Get(fields, "author") == Some(JObject(authorFields))
    requires Get(authorFields, "login").None?
    ensures DecodeContributor(JObject(fields)) == Success(Contributor(DefaultLogin, weeks))
  {
    DecodeDescribedContributor(JObject(fields), Contributor(DefaultLogin, weeks));
  }

  /** An author that is not an object, such as `null`, has no `.get`: the
      contributor cannot be read and `AttributeError` is raised. */
  lemma AuthorNotObjectRaises(fields: seq<(string, Json)>, weeks: seq<Week>, author: Json)
    requires Get(fields, "weeks").Some? && Get(fields, "weeks").value.JArray?
    requires DescribesWeeks(Get(fields, "weeks").value.items, weeks)
    requires Get(fields, "author") == Some(author) && !author.JObject?
    ensures DecodeContributor(JObject(fields)) == Failure(AttributeError)
  {
    DecodeDescribedWeeks(Get(fields, "weeks").value.items, weeks);
  }

  /** The body written by `EncodeContributors` describes its contributors. */
  lemma EncodedDescribes(cs: seq<Contributor>)
    ensures DescribesAll(EncodeContributors(cs), cs)
  {
    forall i | 0 <= i < |cs| ensures Describes(EncodeContributors(cs)[i], cs[i]) {
      DecodeEncodeContributors(cs);
      var j := EncodeContributors(cs)[i];
      EncodedContributorAt(cs, i);
      var c := cs[i];
      GetPair("author", JObject([("login", c.login)]), "weeks", JArray(EncodeWeeks(c.weeks)));
      assert [("login", c.login)][..0] == [];
      assert Get([("login", c.login)], "login") == Some(c.login);
      EncodedWeeksDescribe(c.weeks);
    }
  }

  lemma {:induction false} EncodedContributorAt(cs: seq<Contributor>, i: nat)
    requires i < |cs|
    ensures EncodeContributors(cs)[i]
              == JObject([("author", JObject([("login", cs[i].login)])), ("weeks", JArray(EncodeWeeks(cs[i].weeks)))])
    decreases i
  {
    if i > 0 {
      EncodedContributorAt(cs[1..], i - 1);
    }
  }

  lemma {:induction false} EncodedWeeksDescribe(weeks: seq<Week>)
    ensures DescribesWeeks(EncodeWeeks(weeks), weeks)
    decreases |weeks|
  {
    if |weeks| > 0 {
      EncodedWeeksDescribe(weeks[1..]);
      var items := EncodeWeeks(weeks);
      assert items[1..] == EncodeWeeks(weeks[1..]);
      GetPair("w", JNum(weeks[0].w), "c", JNum(weeks[0].c));
      forall i | 0 <= i < |items| ensures DescribesWeek(items[i], weeks[i]) {
        if i > 0 {
          assert items[i] == items[1..][i - 1];
        }
      }
    }
  }

  /** For any body describing contributors, whatever extra members its
      objects carry, the leaderboard is their ranked tally. */
  lemma ParseResultRanksContributors(items: seq<Json>, cs: seq<Contributor>, start: Bound, end: Bound)
    requires DescribesAll(items, cs)
    ensures ParseResult(JArray(items), start, end) == Success(Rank(Tally(cs, start, end)))
  {
    if |cs| == 0 {
      assert items == [];
      var t := Tally(cs, start, end);
      assert t == [];
      assert Positives(t) == [];
      assert |Rank(t)| == 0;
    } else {
      assert Truthy(JArray(items));
      DecodeDescribedContributors(items, cs);
    }
  }

  /** The week of the example body below, as the service sends it. */
  lemma ExampleWeekDescribes()
    ensures DescribesWeek(JObject([("w", JNum(100)), ("a", JNum(10)), ("d", JNum(2)), ("c", JNum(3))]), Week(100, 3))
  {
    var week := JObject([("w", JNum(100)), ("a", JNum(10)), ("d", JNum(2)), ("c", JNum(3))]);
    assert week.fields[..3] == [("w", JNum(100)), ("a", JNum(10)), ("d", JNum(2))];
    assert week.fields[..3][..2] == [("w", JNum(100)), ("a", JNum(10))];
    assert week.fields[..3][..2][..1] == [("w", JNum(100))];
    assert Get(week.fields[..3][..2], "w") == Some(JNum(100));
    assert Get(week.fields[..3], "w") == Some(JNum(100));
    assert Get(week.fields, "w") == Some(JNum(100));
    assert Get(week.fields, "c") == Some(JNum(3));
  }

  /** The contributor object of the example body below. */
  lemma ExampleBodyDescribes(week: Json)
    requires DescribesWeek(week, Week(100, 3))
    ensures Describes(JObject([("total", JNum(3)), ("weeks", JArray([week])), ("author", JObject([("login", JStr("octocat")), ("id", JNum(1))]))]),
                      Contributor(JStr("octocat"), [Week(100, 3)]))
  {
    var author := JObject([("login", JStr("octocat")), ("id", JNum(1))]);
    var body := JObject([("total", JNum(3)), ("weeks", JArray([week])), ("author", author)]);
    assert author.fields[..1] == [("login", JStr("octocat"))];
    assert Get(author.fields, "login") == Some(JStr("octocat"));
    assert body.fields[..2] == [("total", JNum(3)), ("weeks", JArray([week]))];
    assert Get(body.fields, "weeks") == Some(JArray([week]));
    assert Get(body.fields, "author") == Some(author);
  }

  /** A statistics body shaped as the service sends it, with `total`, the
      weekly `a` and `d`, and the author's `id`: one contributor with 3
      commits in the one week. */
  lemma StatisticsBodyExample()
    ensures ParseResult(JArray([JObject([
              ("total", JNum(3)),
              ("weeks", JArray([JObject([("w", JNum(100)), ("a", JNum(10)), ("d", JNum(2)), ("c", JNum(3))])])),
              ("author", JObject([("login", JStr("octocat")), ("id", JNum(1))]))])]), None, None)
            == Success([Entry(JStr("octocat"), 3)])
  {
    var week := JObject([("w", JNum(100)), ("a", JNum(10)), ("d", JNum(2)), ("c", JNum(3))]);
    var author := JObject([("login", JStr("octocat")), ("id", JNum(1))]);
    var body := JObject([("total", JNum(3)), ("weeks", JArray([week])), ("author", author)]);
    var c := Contributor(JStr("octocat"), [Week(100, 3)]);
    ExampleWeekDescribes();
    ExampleBodyDescribes(week);
    ParseResultRanksContributors([body], [c], None, None);
    ExampleTally();
  }

  /** The leaderboard of the example contributor. */
  lemma ExampleTally()
    ensures Rank(Tally([Contributor(JStr("octocat"), [Week(100, 3)])], None, None)) == [Entry(JStr("octocat"), 3)]
  {
    var t := Tally([Contributor(JStr("octocat"), [Week(100, 3)])], None, None);
    assert t == [Entry(JStr("octocat"), 3)];
    RankOfRanked(t);
  }

  /** `handle_response`: the new leaderboard depends on the body alone; the
      tag and the previous leaderboard play no part. */
  function HandleResponse(contributors: seq<Entry>, data: Json, tag: BaseAnalyst.Tag, start: Bound, end: Bound): (r: Result<seq<Entry>, Fault>)
    ensures !Truthy(data) ==> r == Success([])
    ensures r.Success? ==> Ranked(r.value)
  {
    ParseResult(data, start, end)
  }

  lemma HandleResponseIgnoresTagAndState(c1: seq<Entry>, c2: seq<Entry>, data: Json, t1: BaseAnalyst.Tag, t2: BaseAnalyst.Tag, start: Bound, end: Bound)
    ensures HandleResponse(c1, data, t1, start, end) == HandleResponse(c2, data, t2, start, end)
  {
  }

  /** `get_tasks_to_fetch`: the statistics endpoint of the repository, untagged. */
  function GetTasksToFetch(username: string, repository: string): (r: seq<BaseAnalyst.Task>)
    ensures |r| == 1 && r[0].tag == None
  {
    [BaseAnalyst.Task(BaseAnalyst.BaseApi + "/repos/" + BaseAnalyst.RepositoryName(username, repository) + "/stats/contributors", None)]
  }

  /** A full run: fetch the statistics, fold the body into the (initially
      empty) leaderboard. A failed request degrades to `[]`, so the board
      stays empty. */
  function Run(username: string, repository: string, outcome: BaseAnalyst.Outcome, start: Bound, end: Bound): (r: Result<seq<Entry>, Fault>)
    ensures outcome.RequestFailed? ==> r == Success([])
    ensures outcome.Responded? ==> r == ParseResult(outcome.body, start, end)
  {
    var handle := (cur: seq<Entry>, data: Json, tag: BaseAnalyst.Tag) => HandleResponse(cur, data, tag, start, end);
    var task := GetTasksToFetch(username, repository)[0];
    BaseAnalyst.SingleTaskRun(handle, [], task, outcome);
    BaseAnalyst.GetDataAsynchronous(handle, [], [task], [outcome])
  }
}
