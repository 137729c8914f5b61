/** The three pages of the front end that hold logic: the task list
    (`index`), logging time on one issue (`log_time`) and logging the same
    time on several issues (`log_time_multiple`). Requests arrive as their
    query arguments and form fields; the fetch of assigned issues and the
    current time are inputs. */
module Views {
  import opened Text
  import opened Dates
  import opened Tasks
  import opened Web
  import opened Jira

  datatype HttpMethod = Get | Post

  /** What `get_assigned_tasks` gave: the issues, or the failed reply. */
  datatype Fetch = Fetched(issues: seq<Task>) | FetchFailed(status: nat, body: String)

  /** The flash after a failed fetch: the fixed prefix, the status code and
      the reply's body at the end. */
  function FetchError(status: nat, body: String): (e: String)
    ensures IsPrefix("Failed to fetch tasks: ", e)
    ensures |e| >= |body| && e[|e| - |body|..] == body
  {
    "Failed to fetch tasks: " + NatToString(status) + " " + body
  }

  /** What the task list page is rendered with, and what it flashed. */
  datatype IndexPage = IndexPage(tasks: seq<Task>, filterKeyword: String, sortBy: String,
                                 sortOrder: String, fetched: bool, flashed: seq<Notice>)

  /** What a POST page answers: a redirect, a 400 for a missing form field,
      the preview of a multi-issue log, or the multi-issue form pre-filled
      with a date. */
  datatype Page =
    | Redirected(target: Redirect)
    | MissingField
    | Preview(info: seq<(String, String)>, timeSpent: String, dateInput: String)
    | Prefill(info: seq<(String, String)>, dateInput: String)

  // --------------------------------------------------------------- index

  /** The filter keyword, lower-cased, from the form on POST and from the
      query on GET. */
  function FilterKeyword(verb: HttpMethod, args: map<String, String>, form: map<String, String>): (k: String)
    ensures var raw := if verb == Post then Lookup(form, "filter", "") else Lookup(args, "filter", "");
      |k| == |raw| && forall i :: 0 <= i < |raw| ==> k[i] == LowerChar(raw[i]) && !('A' <= k[i] <= 'Z')
  {
    Lower(if verb == Post then Lookup(form, "filter", "") else Lookup(args, "filter", ""))
  }

  /** `sort_by == 'summary'` chooses the summary; any other value the key. */
  function SortFieldOf(sortBy: String): (f: SortField)
    ensures f == BySummary <==> sortBy == "summary"
  {
    if sortBy == "summary" then BySummary else ByKey
  }

  /** `index`: fetch only when filtering or asked to with `fetch=1`, keep the
      issues whose summary contains the keyword, then sort. */
  function Index(verb: HttpMethod, args: map<String, String>, form: map<String, String>, fetch: Fetch): IndexPage {
    var sortBy := Lookup(args, "sort_by", "summary");
    var sortOrder := Lookup(args, "sort_order", "desc");
    var keyword := FilterKeyword(verb, args, form);
    var fetched := keyword != [] || (verb == Get && Lookup(args, "fetch", "") == "1");
    var flashed := if fetched && fetch.FetchFailed? then [Notice(Danger, FetchError(fetch.status, fetch.body))] else [];
    var got := if fetched && fetch.Fetched? then fetch.issues else [];
    var kept := if keyword != [] then Filter(got, keyword) else got;
    var shown := if kept != [] then Sort(kept, SortFieldOf(sortBy), sortOrder == "desc") else kept;
    IndexPage(shown, keyword, sortBy, sortOrder, fetched, flashed)
  }

  /** The empty keyword is in every summary, so it filters nothing. */
  lemma {:induction false} FilterNothing(tasks: seq<Task>)
    ensures Filter(tasks, []) == tasks
  {
    if tasks != [] {
      assert IsPrefix([], Lower(tasks[0].summary));
      FilterNothing(tasks[1..]);
    }
  }

  /** The page lists exactly the fetched issues whose lower-cased summary
      contains the keyword, each as often as it was fetched, ordered by the
      chosen key (by summary, descending, unless the query says otherwise)
      and keeping fetch order among equal keys. Issues are fetched only for
      a non-empty filter or `fetch=1` on GET, and a failed fetch lists
      nothing and flashes the failure. */
  lemma IndexSpec(verb: HttpMethod, args: map<String, String>, form: map<String, String>, fetch: Fetch)
    ensures var page := Index(verb, args, form, fetch);
      var field := SortFieldOf(page.sortBy);
      var descending := page.sortOrder == "desc";
      var source := if page.fetched && fetch.Fetched? then fetch.issues else [];
      (page.fetched <==> page.filterKeyword != [] || (verb == Get && "fetch" in args && args["fetch"] == "1")) &&
      (forall t :: t in page.tasks <==> t in source && Matches(t, page.filterKeyword)) &&
      multiset(page.tasks) == multiset(Filter(source, page.filterKeyword)) &&
      Sorted(page.tasks, field, descending) &&
      (forall k :: WithKey(page.tasks, k, field) == WithKey(Filter(source, page.filterKeyword), k, field)) &&
      (page.flashed != [] <==> page.fetched && fetch.FetchFailed?) &&
      ("sort_by" !in args ==> field == BySummary) &&
      ("sort_order" !in args ==> descending)
  {
    var page := Index(verb, args, form, fetch);
    var source := if page.fetched && fetch.Fetched? then fetch.issues else [];
    var kept := Filter(source, page.filterKeyword);
    if page.filterKeyword == [] {
      FilterNothing(source);
    }
    assert page.tasks == Sort(kept, SortFieldOf(page.sortBy), page.sortOrder == "desc");
    SortSpec(kept, SortFieldOf(page.sortBy), page.sortOrder == "desc");
    forall t ensures t in page.tasks <==> t in source && Matches(t, page.filterKeyword) {
      FilterMembers(source, page.filterKeyword, t);
      assert t in page.tasks <==> t in multiset(page.tasks);
    }
  }

  // ------------------------------------------------------------ log_time

  /** The `started` value for a date field in `layout`: the re-rendered date,
      or the current time when the field is empty. */
  function Started(dateInput: String, layout: Layout, now: DateTime): (r: Result<String>)
    ensures dateInput == [] ==> r == Ok(Timestamp(now))
    ensures dateInput != [] ==> (r.Ok? <==> Parse(dateInput, layout).Ok?)
  {
    if dateInput != [] then Relayout(dateInput, layout) else Ok(Timestamp(now))
  }

  /** A date typed in either layout gives the start time of the same instant,
      with seconds at zero. */
  lemma StartedAgrees(d: DateTime, now: DateTime)
    requires Valid(d) && d.second == 0
    ensures Started(FormatDateFirst(d), DateFirst, now) == Started(FormatTimeFirst(d), TimeFirst, now) == Ok(Timestamp(d))
  {
    ParseFormatDateFirst(d);
    ParseFormatTimeFirst(d);
    assert FormatDateFirst(d) != [] && FormatTimeFirst(d) != [];
  }

  /** `log_time` on POST: one post with the form's time spent, verbatim, and
      the start time from layout A, or nothing but a notice when the date
      does not parse. */
  method LogTime(issueKey: String, form: map<String, String>, now: DateTime, tracker: Tracker)
    returns (flashed: seq<Notice>, page: Page)
    modifies tracker
    ensures !("time_spent" in form && "date_input" in form) ==>
      page == MissingField && flashed == [] && tracker.posted == old(tracker.posted)
    ensures "time_spent" in form && "date_input" in form ==>
      var started := Started(form["date_input"], DateFirst, now);
      (started.Err? ==>
        flashed == [Notice(Danger, "Invalid date format. Use YYYY-MM-DD HH:MM.")] &&
        page == Redirected(ToSamePage) && tracker.posted == old(tracker.posted)) &&
      (started.Ok? ==>
        var w := Worklog(issueKey, form["time_spent"], started.value);
        tracker.posted == old(tracker.posted) + [w] &&
        flashed == [OutcomeNotice(w, tracker.server(w, |old(tracker.posted)|))] &&
        page == Redirected(ToIndex))
  {
    if "time_spent" !in form || "date_input" !in form {
      return [], MissingField;
    }
    var timeSpent := form["time_spent"];
    var started := Started(form["date_input"], DateFirst, now);
    if started.Err? {
      return [Notice(Danger, "Invalid date format. Use YYYY-MM-DD HH:MM.")], Redirected(ToSamePage);
    }
    var success, msg := tracker.LogWork(issueKey, timeSpent, started.value);
    flashed := [Notice(if success then Success else Danger, msg)];
    page := Redirected(ToIndex);
  }

  // --------------------------------------------------- log_time_multiple

  /** `[(key, key_to_summary.get(key, '')) for key in selected_tasks]`. */
  function SelectedInfo(selected: seq<String>, tasks: seq<Task>): (info: seq<(String, String)>)
    ensures |info| == |selected|
  {
    seq(|selected|, i requires 0 <= i < |selected| => (selected[i], Lookup(KeyToSummary(tasks), selected[i], "")))
  }

  /** Each selected key is shown with the summary of the last fetched issue
      that has that key, or with the empty string when none has. */
  lemma SelectedInfoSpec(selected: seq<String>, tasks: seq<Task>, i: nat)
    requires i < |selected|
    ensures SelectedInfo(selected, tasks)[i].0 == selected[i]
    ensures (forall j :: 0 <= j < |tasks| ==> tasks[j].key != selected[i]) ==>
      SelectedInfo(selected, tasks)[i].1 == []
    ensures forall j :: (0 <= j < |tasks| && tasks[j].key == selected[i] &&
                         (forall k :: j < k < |tasks| ==> tasks[k].key != tasks[j].key)) ==>
      SelectedInfo(selected, tasks)[i].1 == tasks[j].summary
  {
    KeyToSummaryDomain(tasks, selected[i]);
    forall j | 0 <= j < |tasks| && tasks[j].key == selected[i] &&
      (forall k :: j < k < |tasks| ==> tasks[k].key != tasks[j].key)
      ensures SelectedInfo(selected, tasks)[i].1 == tasks[j].summary
    {
      KeyToSummarySpec(tasks, j);
    }
  }

  /** One work log per selected key, all with the same time and start. */
  function SameWorklog(keys: seq<String>, timeSpent: String, started: String): (ws: seq<Worklog>)
    ensures |ws| == |keys|
    ensures forall i :: 0 <= i < |keys| ==> ws[i] == Worklog(keys[i], timeSpent, started)
  {
    seq(|keys|, i requires 0 <= i < |keys| => Worklog(keys[i], timeSpent, started))
  }

  /** `log_time_multiple` on POST. With `confirm`, every selected key is
      logged exactly once, in order, with the same time spent and the same
      start time from layout B, unless the date does not parse, in which
      case nothing is posted. Without it the page only previews or pre-fills
      the form with the current time in layout B. */
  method LogTimeMultiple(selected: seq<String>, form: map<String, String>, tasks: seq<Task>,
                         now: DateTime, tracker: Tracker)
    returns (flashed: seq<Notice>, page: Page)
    modifies tracker
    ensures selected == [] ==>
      flashed == [Notice(Danger, "No tasks selected.")] && page == Redirected(ToIndex) &&
      tracker.posted == old(tracker.posted)
    ensures selected != [] && "confirm" in form && !("time_spent" in form && "date_input" in form) ==>
      page == MissingField && flashed == [] && tracker.posted == old(tracker.posted)
    ensures selected != [] && "confirm" in form && "time_spent" in form && "date_input" in form ==>
      var started := Started(form["date_input"], TimeFirst, now);
      (started.Err? ==>
        flashed == [Notice(Danger, "Invalid date format. Use HH:MM DD-MM-YYYY.")] &&
        page == Preview(SelectedInfo(selected, tasks), form["time_spent"], form["date_input"]) &&
        tracker.posted == old(tracker.posted)) &&
      (started.Ok? ==>
        var works := SameWorklog(selected, form["time_spent"], started.value);
        tracker.posted == old(tracker.posted) + works &&
        flashed == Notices(works, tracker.server, |old(tracker.posted)|) &&
        page == Redirected(ToIndex))
    ensures selected != [] && "confirm" !in form && "time_spent" in form ==>
      flashed == [] && tracker.posted == old(tracker.posted) &&
      page == (if "date_input" in form
               then Preview(SelectedInfo(selected, tasks), form["time_spent"], form["date_input"])
               else MissingField)
    ensures selected != [] && "confirm" !in form && "time_spent" !in form ==>
      flashed == [] && tracker.posted == old(tracker.posted) &&
      page == Prefill(SelectedInfo(selected, tasks), FormatTimeFirst(now))
  {
    if selected == [] {
      return [Notice(Danger, "No tasks selected.")], Redirected(ToIndex);
    }
    var info := SelectedInfo(selected, tasks);
    if "confirm" in form {
      if "time_spent" !in form || "date_input" !in form {
        return [], MissingField;
      }
      var timeSpent, dateInput := form["time_spent"], form["date_input"];
      var started := Started(dateInput, TimeFirst, now);
      if started.Err? {
        return [Notice(Danger, "Invalid date format. Use HH:MM DD-MM-YYYY.")], Preview(info, timeSpent, dateInput);
      }
      flashed := LogEach(SameWorklog(selected, timeSpent, started.value), tracker);
      page := Redirected(ToIndex);
    } else if "time_spent" in form {
      if "date_input" !in form {
        return [], MissingField;
      }
      return [], Preview(info, form["time_spent"], form["date_input"]);
    } else {
      return [], Prefill(info, FormatTimeFirst(now));
    }
  }

  /** The pre-filled date reads back, in layout B, as the current minute. */
  lemma PrefillReadsBack(now: DateTime)
    requires Valid(now)
    ensures Started(FormatTimeFirst(now), TimeFirst, now) == Ok(Timestamp(now.(second := 0)))
  {
    PrefillRoundTrip(now);
    assert FormatTimeFirst(now) != [];
  }
}
