# repository_analyst in Dafny

A model of the analysis core of `repository_analyst`, a command-line tool.
Given a GitHub repository, the tool runs three analysts in turn and
displays each one's result. It ranks the most active contributors, counts
the repository's open, closed and "old" pull requests, and counts its
issues the same way. The issue analyst is not modelled. The model covers
these parts:

- how an analyst builds its GitHub search queries: the insertion-ordered
  query dictionary, `combine_parameters`, `get_dates`, `get_repository_name`,
  and the pull-request analyst's `set_query_params`, `get_fetch_url` and
  `get_tasks_to_fetch`;
- how the tagged responses are folded into the analyst's state: the `fetch`
  fallback on a failed request, and `get_data_asynchronous` as a fetch of
  every task followed by a fold in task order, which is the order
  `asyncio.gather` returns;
- the two `handle_response` methods: the contributor leaderboard and the
  three pull-request counters.

Modules:

- `Wrappers` holds `Option` and `Result`.
- `Text` holds `SplitOnce`, used to read query values and repository names back.
- `JsonValues` holds a decoded response body (`Json`), Python truthiness, and
  the exceptions a handler can raise (`Fault`: `KeyError`, `TypeError`,
  `AttributeError`).
- `Params` is the insertion-ordered query dictionary together with
  `combine_parameters`.
- `BaseAnalyst` holds the shared analyst logic.
- `Ranking` holds the stable descending sort, the filter and the top-30 cut
  of the leaderboard.
- `ContributorAnalyst` and `PullRequestAnalyst` model the two concrete analysts.

An exception raised by a handler ends the run in the source. The model shows
this as a `Failure` that stops the fold.

Where the documentation and the code differ, the model follows the code:

- The code starts the pull-request counters at 0 (the class attributes at
  `classes/base_analyst.py:14-16`), not at "N/A". "N/A" appears only when a
  body has no `total_count`. A failed search produces an empty dict, so it
  also reports "N/A".
- A contributor entry without `weeks` or `author`, or a body of the wrong
  shape, raises an exception rather than falling back to a default.
- The command-line help text gives dates as `dd.mm.yyyy`. The code parses
  `%Y-%m-%d`.

## Model

| member | source | states |
|---|---|---|
| Params.CombineParameters | classes/base_analyst.py:81-85 | every item contributes key, value and `+`, in the dictionary's insertion order; an empty dictionary gives `""`; a non-empty one ends in `+`; the length is the sum of the items' lengths plus one per item |
| Params.JoinedAppend | classes/base_analyst.py:83-84 | joining two dictionaries' items one after the other is the concatenation of their joins |
| Params.JoinedLength | classes/base_analyst.py:81-85 | the combined string is exactly as long as all keys and values plus one `+` per item |
| Params.JoinedEndsWithPlus | classes/base_analyst.py:81-85 | a non-empty dictionary combines to a string whose last character is `+` |
| Params.Set | classes/pull_request_analyst.py:32 | after `d[k] = v` the key reads `v` and every other key reads as before; an existing key keeps its position, a new key is appended; distinct keys stay distinct |
| Params.SetNewKey | classes/pull_request_analyst.py:32 | assigning a key the dictionary lacks appends the item at the end |
| Params.SetExistingKey | classes/pull_request_analyst.py:32 | assigning a key already present replaces its value in place and leaves every other item where it was |
| Params.Update | classes/pull_request_analyst.py:33 | after `update`, keys of the argument read its values and the rest read as before; key membership is the union; when the argument brings no new key, the key order is unchanged |
| Params.UpdateSingle | classes/pull_request_analyst.py:33 | updating with a one-item dictionary is the same as assigning that item |
| BaseAnalyst.RepositoryName | classes/base_analyst.py:91-92 | the full name is user name, a slash and repository, with length `|user| + 1 + |repo|` |
| BaseAnalyst.RepositoryNameRoundTrip | classes/base_analyst.py:91-92 | for a user name without a slash, splitting the full name at its first slash gives back the user name and the repository |
| BaseAnalyst.GetDates | classes/base_analyst.py:105-116 | the result has at most the one key `created:`; an "old" query always gets `<bound`; otherwise it is empty exactly when neither date is given (an empty string counts as not given) |
| BaseAnalyst.GetDatesRoundTrip | classes/base_analyst.py:105-116 | the `created:` value reads back as the intended window: before the bound, between both dates, from the start or until the end; no value means no window. Dates may contain single dots; the only conditions are that no date contains `..`, the start date does not end in `.`, and no date is `*` |
| BaseAnalyst.DottedDatesRoundTrip | classes/base_analyst.py:110-111 | the window `01.02.2020..31.12.2020`, written in the documented `dd.mm.yyyy` form, reads back as that window |
| BaseAnalyst.Fetch | classes/base_analyst.py:94-103 | the tag is passed through unchanged and the body on success; a failed request gives a falsy empty dict when the tag is truthy and a falsy empty list otherwise |
| BaseAnalyst.Gather | classes/base_analyst.py:126-133 | one `(data, tag)` pair per task, in task order, each paired with its own task's tag and fetched from its own outcome; a failed request never gives a truthy body |
| BaseAnalyst.GetDataAsynchronous | classes/base_analyst.py:118-134 | with no tasks the state is left untouched |
| BaseAnalyst.EachTaskHandledOnce | classes/base_analyst.py:126-134 | the handler is called exactly once per task, in task order, with that task's fetched body and tag |
| BaseAnalyst.SingleTaskRun | classes/base_analyst.py:118-134 | a run with one task is one handler call on the fetched body and the task's tag |
| BaseAnalyst.FoldResponses | classes/base_analyst.py:133-134 | no responses leave the state as it was; a handler that never raises never ends the run; an error that ends the run is one the handler raised on one of the responses |
| BaseAnalyst.FoldCons | classes/base_analyst.py:133-134 | the first response is handled first; an exception there ends the run, otherwise the rest are folded into the new state |
| BaseAnalyst.FoldAppend | classes/base_analyst.py:133-134 | folding two batches of responses is folding the first and then, unless it raised, the second from where the first left off |
| Ranking.WithCount | classes/contributor_analyst.py:52 | the entries with a given commit count are exactly the members with that count |
| Ranking.SortDesc | classes/contributor_analyst.py:52 | the sort is a permutation, sorted by descending commit count, and stable: entries with equal counts keep their relative order |
| Ranking.StableSortUnique | classes/contributor_analyst.py:52 | any descending arrangement that keeps every equal-count group in input order is the sort's result, so the sort is pinned down completely |
| Ranking.Positives | classes/contributor_analyst.py:53 | the filter keeps at most the input's entries, and every entry it keeps has a positive count |
| Ranking.PositivesMembers | classes/contributor_analyst.py:53 | the filter keeps exactly the entries with a positive commit count |
| Ranking.PositivesMultiset | classes/contributor_analyst.py:53 | the filter keeps every positive entry as often as it occurs and drops every other |
| Ranking.PositivesSorted | classes/contributor_analyst.py:53 | filtering a sorted list leaves it sorted |
| Ranking.PositivesWithCount | classes/contributor_analyst.py:53 | the filter keeps each positive-count group whole and in order, and removes the others |
| Ranking.Rank | classes/contributor_analyst.py:52-54 | the leaderboard is sorted descending and holds only positive entries taken from the input; it has `min(#positive, 30)` entries and is all positives when at most 30 exist; each count group is a prefix of the input's group; every positive entry left off is no larger than any entry kept |
| Ranking.RankIdempotent | classes/contributor_analyst.py:52-54 | a leaderboard is already ranked: ranking it again changes nothing |
| Ranking.RankOfRanked | classes/contributor_analyst.py:52-54 | ranking a list that is already descending, positive and at most thirty long returns it unchanged |
| ContributorAnalyst.FilterWeeksCases | classes/contributor_analyst.py:27-35 | with both dates a week passes exactly when it passes each one-sided filter and does not start at the end date; a zero date counts as no date; any date requires commits; with no date only a positive timestamp is required |
| ContributorAnalyst.CommitCount | classes/contributor_analyst.py:43-47 | with a bound given, the count is non-negative and is zero exactly when no week passes the filter |
| ContributorAnalyst.CommitCountAppend | classes/contributor_analyst.py:47 | the sum over concatenated week lists is the sum of the sums |
| ContributorAnalyst.WindowSplit | classes/contributor_analyst.py:28-31 | the window `[start, mid)` plus the open window from `mid` counts exactly what the open window from `start` counts |
| ContributorAnalyst.EndBoundInclusivity | classes/contributor_analyst.py:28-33 | a week starting at the end date counts with only an end date given, but not with both dates given |
| ContributorAnalyst.UnboundedExample | classes/contributor_analyst.py:34-35 | with no dates, every week with a positive timestamp counts |
| ContributorAnalyst.DecodeWeek | classes/contributor_analyst.py:45-47 | a decoded week carries exactly the numbers stored under `w` and `c` |
| ContributorAnalyst.DecodeWeeks | classes/contributor_analyst.py:43-46 | the weekly buckets are read in order, one week per bucket; the list is read exactly when every bucket is, and otherwise the error is one a bucket raised |
| ContributorAnalyst.DecodeContributor | classes/contributor_analyst.py:43-49 | a non-object raises `TypeError`; a contributor is read only from an object with a `weeks` list whose buckets are all read, and an `author` object; its login is the author's `login`, or "Not defined" when there is none |
| ContributorAnalyst.DecodeContributors | classes/contributor_analyst.py:42-49 | the contributors are read in order, one per entry; the list is read exactly when every entry is, and otherwise the error is one an entry raised |
| ContributorAnalyst.MissingLoginDefaults | classes/contributor_analyst.py:49 | an author object without `login` gives the login "Not defined" |
| ContributorAnalyst.AuthorNotObjectRaises | classes/contributor_analyst.py:49 | an author that is not an object, such as `null`, raises `AttributeError` |
| ContributorAnalyst.DecodeDescribedContributors | classes/contributor_analyst.py:42-50 | entries that carry given contributors are read as those contributors, whatever extra members the objects have |
| ContributorAnalyst.DecodeEncodeWeeks | classes/contributor_analyst.py:43-47 | decoding the statistics' weekly buckets gives back the weeks they were written from |
| ContributorAnalyst.DecodeEncodeContributors | classes/contributor_analyst.py:42-50 | decoding a statistics body gives back every contributor's login and weeks, in order |
| ContributorAnalyst.Tally | classes/contributor_analyst.py:42-51 | one entry per contributor, in order, with the contributor's login and the count of the weeks inside the window |
| ContributorAnalyst.ParseResult | classes/contributor_analyst.py:37-54 | a falsy body gives an empty leaderboard; a truthy non-list raises `TypeError`; a parsed result is always a ranked leaderboard |
| ContributorAnalyst.ParseResultRanksContributors | classes/contributor_analyst.py:37-54 | for any statistics body that carries given contributors, whatever extra members (`total`, the weekly `a` and `d`, the author's `id`) it has, the leaderboard is the ranking of each contributor's commits in the window |
| ContributorAnalyst.StatisticsBodyExample | classes/contributor_analyst.py:37-54 | a body shaped as the service sends it, with one contributor and 3 commits in one week, gives the leaderboard of that one login with 3 commits |
| ContributorAnalyst.HandleResponse | classes/contributor_analyst.py:56-57 | a falsy body empties the leaderboard; any other result is ranked |
| ContributorAnalyst.HandleResponseIgnoresTagAndState | classes/contributor_analyst.py:56-57 | the new leaderboard depends only on the body: neither the tag nor the previous leaderboard matters |
| ContributorAnalyst.GetTasksToFetch | classes/contributor_analyst.py:11-15 | one task, untagged |
| ContributorAnalyst.Run | classes/base_analyst.py:118-134 | a failed request leaves an empty leaderboard, since the untagged fallback is an empty list; otherwise the result is the parse of the body |
| PullRequestAnalyst.SetQueryParams | classes/pull_request_analyst.py:18-21 | `repo:`, `is:` and `base:` read the full name, `pr` and the branch; every other key is unchanged; on an empty dictionary the result is those three items in that order |
| PullRequestAnalyst.InitialKeys | classes/pull_request_analyst.py:18-21 | the fresh dictionary's key order is `repo:`, `is:`, `base:` |
| PullRequestAnalyst.SearchUrl | classes/pull_request_analyst.py:34 | the query reads back from everything after the first `?q=` of the URL, so different queries give different URLs |
| PullRequestAnalyst.GetFetchUrl | classes/pull_request_analyst.py:30-34 | the URL is built from the dictionary left behind; that dictionary has `state:` set and `created:` set by the date rule or kept from before; no other key changes; keys stay distinct |
| PullRequestAnalyst.FirstUrl | classes/pull_request_analyst.py:30-34 | on the fresh dictionary the state, then the window, are appended at the end |
| PullRequestAnalyst.LaterUrlAfterState | classes/pull_request_analyst.py:31-33 | a later call rewrites `state:` in place and appends or keeps the window |
| PullRequestAnalyst.LaterUrlAfterWindow | classes/pull_request_analyst.py:31-33 | once a window is present, a later call rewrites both values in place |
| PullRequestAnalyst.GetTasksToFetch | classes/pull_request_analyst.py:23-28 | three tasks tagged open, closed and old, in that order; each URL comes from the shared dictionary as it stood after that task's update, and that last state is what remains |
| PullRequestAnalyst.SnapshotQualifiers | classes/pull_request_analyst.py:23-34 | the open and closed queries ask for their state, the old query asks for open pull requests created before the bound date, and all three keep the repository, kind and branch |
| PullRequestAnalyst.OpenClosedDifferOnlyInState | classes/pull_request_analyst.py:23-28 | the open and closed queries have the same keys in the same order and differ only in the state value |
| PullRequestAnalyst.FreshTasksWithoutDates | classes/pull_request_analyst.py:23-28 | with no dates, the exact three URLs: repo, kind, branch and state, then the cutoff added for the old query only |
| PullRequestAnalyst.FreshTasksWithDates | classes/pull_request_analyst.py:23-28 | with a date, the exact three URLs: the user's window on open and closed, replaced in place by the cutoff for the old query |
| PullRequestAnalyst.RepeatedTasksInheritCutoff | classes/pull_request_analyst.py:8 | because the dictionary is shared, building the tasks a second time with no dates leaves the old query's cutoff on the open and closed queries |
| PullRequestAnalyst.TotalCount | classes/pull_request_analyst.py:45 | only a dict answers `.get`, and anything else raises `AttributeError`; the value is `total_count`, or "N/A" when the key is missing |
| PullRequestAnalyst.HandleResponse | classes/pull_request_analyst.py:43-49 | a response tagged open, closed or old sets exactly its own counter from the body, or raises when the body is not a dict; any other tag changes nothing |
| PullRequestAnalyst.HandleCommutes | classes/pull_request_analyst.py:43-49 | responses with different tags can be handled in either order with the same outcome, so the counters do not depend on which search finishes first |
| PullRequestAnalyst.Reported | classes/pull_request_analyst.py:45 | a failed search reports "N/A"; an answered search reports a count exactly when its body is a dict |
| PullRequestAnalyst.FoldThree | classes/pull_request_analyst.py:43-49 | folding the three tagged answers sets all three counters, whatever they held; a non-dict answer raises `AttributeError` |
| PullRequestAnalyst.GatherThree | classes/pull_request_analyst.py:23-28 | the gathered pairs are the three outcomes' bodies tagged open, closed and old, in that order |
| PullRequestAnalyst.RunReports | classes/base_analyst.py:118-134 | after a run each counter is overwritten by its own search's report, so the initial 0 plays no part; if any search returns a non-dict body, the run fails with `AttributeError` |
| PullRequestAnalyst.RunAllFailed | classes/base_analyst.py:99-101 | when every request fails, every counter reads "N/A" rather than 0 |

## Left out

- `check_repository` is not modelled. It matches a URL with a regular expression, makes two network checks and calls `sys.exit`. The user name and repository are parameters.
- The HTTP session, retries, timeouts, headers and the personal access token are not modelled. A request's result is an `Outcome` parameter: a decoded body or a failure.
- A body that is not valid JSON is counted as a failed request. This assumes a `requests` release where the JSON decode error is a `RequestException`.
- The thread pool and event-loop scheduling are not modelled. Only the order of `gather`'s results matters, and that is the task order.
- `strptime`, `mktime` and `datetime.now` are not modelled. Date bounds are given as integer timestamps, and the bound date of the pull-request analyst is a string parameter. The command-line parsing in `classes/argument_parser.py` is not part of this model.
- `display_result`, `__str__` and `run`'s printing produce output only, so they are not modelled.
- `classes/client.py` and `analyze_repository.py` only dispatch to the analysts, so they are not modelled. The issue analyst is not part of this model.
- JSON numbers are integers. Floating-point timestamps and counts are not modelled.
- ContributorAnalyst.DecodeWeek: decoding is stricter than the source. Every week must have integer `w` and `c`, and `weeks` must be a list. The source reads `c` only for weeks whose `w` passes the filter, and it would also iterate over a dict or string `weeks`.
- ContributorAnalyst.DecodeContributor: logins are kept as raw JSON values, and only the fields the analyst reads are decoded.
- BaseAnalyst.GetDataAsynchronous: its own contract covers only the empty case. EachTaskHandledOnce and FoldAppend state the general case.
- PullRequestAnalyst.Run: its contract is stated separately in RunReports and RunAllFailed.
- The query dictionary is a class attribute, so several analyst objects in one process share it. The model passes the dictionary through explicitly. RepeatedTasksInheritCutoff shows what sharing does across calls.
