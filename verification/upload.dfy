/** The bulk upload: a text file of `task name,time spent,date` lines is
    checked line by line into a dry-run list of work logs, which is then
    submitted in order, one post per entry. */
module Upload {
  import opened Text
  import opened Dates
  import opened Tasks
  import opened Web
  import opened Jira

  /** What the first loop does with one line: append a work log, or flash a
      notice and continue with the next line. */
  datatype Verdict = Keep(entry: Worklog) | Skip(notice: Notice)

  /** One iteration of the first loop of `upload_file`. */
  function CheckLine(line: String, summaryToKey: map<String, String>): (v: Verdict)
    ensures v.Skip? ==> v.notice.category == Danger
    ensures v.Keep? ==> v.entry.issueKey != [] && |v.entry.started| == 28
  {
    var stripped := Strip(line);
    var parts := Split(stripped, ',');
    if |parts| != 3 then Skip(Notice(Danger, "Invalid line format: " + stripped))
    else
      var name := parts[0];
      if name !in summaryToKey || summaryToKey[name] == [] then
        Skip(Notice(Danger, "Task not found: " + name))
      else
        match Relayout(parts[2], DateFirst)
        case Err(_) => Skip(Notice(Danger, "Invalid date format for task " + name + ". Use YYYY-MM-DD HH:MM."))
        case Ok(started) => Keep(Worklog(summaryToKey[name], parts[1], started))
  }

  /** A kept line is, once stripped, three comma-free fields: a task name
      that maps to a non-empty key, a time spent that is passed on verbatim,
      and a date in layout A, re-rendered as the start time. */
  lemma KeptLine(line: String, summaryToKey: map<String, String>)
    requires CheckLine(line, summaryToKey).Keep?
    ensures var p := Split(Strip(line), ',');
      |p| == 3 && Strip(line) == p[0] + [','] + p[1] + [','] + p[2] &&
      p[0] in summaryToKey && summaryToKey[p[0]] != [] && Parse(p[2], DateFirst).Ok? &&
      CheckLine(line, summaryToKey).entry ==
        Worklog(summaryToKey[p[0]], p[1], Timestamp(Parse(p[2], DateFirst).value))
  {
    SplitThreeFields(Strip(line), ',');
    RelayoutOfParsed(Split(Strip(line), ',')[2], DateFirst);
  }

  /** Conversely, every such line is kept, with exactly that work log. */
  lemma KeepsLine(line: String, name: String, spent: String, date: String, summaryToKey: map<String, String>)
    requires Strip(line) == name + [','] + spent + [','] + date
    requires ',' !in name && ',' !in spent && ',' !in date
    requires name in summaryToKey && summaryToKey[name] != []
    requires Parse(date, DateFirst).Ok?
    ensures CheckLine(line, summaryToKey) ==
      Keep(Worklog(summaryToKey[name], spent, Timestamp(Parse(date, DateFirst).value)))
  {
    SplitOfThreeFields(name, spent, date, ',');
    RelayoutOfParsed(date, DateFirst);
  }

  /** Each way a line can fail is reported with its own message, checked in
      this order: the field count, the task name, the date. */
  lemma SkippedLine(line: String, summaryToKey: map<String, String>)
    ensures var p := Split(Strip(line), ',');
      |p| != 3 ==> CheckLine(line, summaryToKey) == Skip(Notice(Danger, "Invalid line format: " + Strip(line)))
    ensures var p := Split(Strip(line), ',');
      |p| == 3 && (p[0] !in summaryToKey || summaryToKey[p[0]] == []) ==>
        CheckLine(line, summaryToKey) == Skip(Notice(Danger, "Task not found: " + p[0]))
    ensures var p := Split(Strip(line), ',');
      |p| == 3 && p[0] in summaryToKey && summaryToKey[p[0]] != [] && Parse(p[2], DateFirst).Err? ==>
        CheckLine(line, summaryToKey) ==
          Skip(Notice(Danger, "Invalid date format for task " + p[0] + ". Use YYYY-MM-DD HH:MM."))
  {
  }

  /** The verdict on every line of the file, in order. */
  function Verdicts(lines: seq<String>, check: String -> Verdict): (vs: seq<Verdict>)
    ensures |vs| == |lines|
    ensures forall i :: 0 <= i < |lines| ==> vs[i] == check(lines[i])
  {
    seq(|lines|, i requires 0 <= i < |lines| => check(lines[i]))
  }

  /** Checking a concatenation of files checks each of them. */
  lemma VerdictsAppend(a: seq<String>, b: seq<String>, check: String -> Verdict)
    ensures Verdicts(a + b, check) == Verdicts(a, check) + Verdicts(b, check)
  {
  }

  /** The first loop's body, for a fixed summary-to-key dictionary. */
  function LineCheck(summaryToKey: map<String, String>): String -> Verdict {
    line => CheckLine(line, summaryToKey)
  }

  /** The work logs of the kept lines, in order. */
  function Entries(vs: seq<Verdict>): (entries: seq<Worklog>)
    ensures |entries| <= |vs|
  {
    if vs == [] then []
    else Entries(vs[..|vs| - 1]) + (if vs[|vs| - 1].Keep? then [vs[|vs| - 1].entry] else [])
  }

  /** The notices of the skipped lines, in order. */
  function Skips(vs: seq<Verdict>): (ns: seq<Notice>)
    ensures |ns| <= |vs|
  {
    if vs == [] then []
    else Skips(vs[..|vs| - 1]) + (if vs[|vs| - 1].Skip? then [vs[|vs| - 1].notice] else [])
  }

  /** `dry_run_results` after the first loop over `lines`. */
  function DryRun(lines: seq<String>, summaryToKey: map<String, String>): seq<Worklog> {
    Entries(Verdicts(lines, LineCheck(summaryToKey)))
  }

  /** The notices the first loop flashes, one per skipped line. */
  function SkipNotices(lines: seq<String>, summaryToKey: map<String, String>): seq<Notice> {
    Skips(Verdicts(lines, LineCheck(summaryToKey)))
  }

  /** Every line either adds one entry or flashes one notice. */
  lemma {:induction false} EveryVerdictAccounted(vs: seq<Verdict>)
    ensures |Entries(vs)| + |Skips(vs)| == |vs|
  {
    if vs != [] {
      EveryVerdictAccounted(vs[..|vs| - 1]);
    }
  }

  lemma EveryLineAccounted(lines: seq<String>, summaryToKey: map<String, String>)
    ensures |DryRun(lines, summaryToKey)| + |SkipNotices(lines, summaryToKey)| == |lines|
  {
    EveryVerdictAccounted(Verdicts(lines, LineCheck(summaryToKey)));
  }

  lemma {:induction false} EntriesAppend(a: seq<Verdict>, b: seq<Verdict>)
    ensures Entries(a + b) == Entries(a) + Entries(b)
    decreases |b|
  {
    if b == [] {
      assert a + b == a;
    } else {
      var n := |b| - 1;
      assert (a + b)[..|a + b| - 1] == a + b[..n];
      assert (a + b)[|a + b| - 1] == b[n];
      EntriesAppend(a, b[..n]);
    }
  }

  lemma {:induction false} SkipsAppend(a: seq<Verdict>, b: seq<Verdict>)
    ensures Skips(a + b) == Skips(a) + Skips(b)
    decreases |b|
  {
    if b == [] {
      assert a + b == a;
    } else {
      var n := |b| - 1;
      assert (a + b)[..|a + b| - 1] == a + b[..n];
      assert (a + b)[|a + b| - 1] == b[n];
      SkipsAppend(a, b[..n]);
    }
  }

  /** Processing a file in two halves gives the same dry run and the same
      notices, in order. */
  lemma DryRunAppend(a: seq<String>, b: seq<String>, summaryToKey: map<String, String>)
    ensures DryRun(a + b, summaryToKey) == DryRun(a, summaryToKey) + DryRun(b, summaryToKey)
    ensures SkipNotices(a + b, summaryToKey) == SkipNotices(a, summaryToKey) + SkipNotices(b, summaryToKey)
  {
    VerdictsAppend(a, b, LineCheck(summaryToKey));
    EntriesAppend(Verdicts(a, LineCheck(summaryToKey)), Verdicts(b, LineCheck(summaryToKey)));
    SkipsAppend(Verdicts(a, LineCheck(summaryToKey)), Verdicts(b, LineCheck(summaryToKey)));
  }

  /** The positions of the kept verdicts, in increasing order. */
  function KeptPositions(vs: seq<Verdict>): (ks: seq<nat>)
    ensures forall j :: 0 <= j < |ks| ==> ks[j] < |vs| && vs[ks[j]].Keep?
    ensures forall j, k :: 0 <= j < k < |ks| ==> ks[j] < ks[k]
    ensures forall i :: 0 <= i < |vs| && vs[i].Keep? ==> i in ks
  {
    if vs == [] then []
    else
      var n := |vs| - 1;
      var front := KeptPositions(vs[..n]);
      assert forall j :: 0 <= j < |front| ==> vs[..n][front[j]] == vs[front[j]];
      assert forall i :: 0 <= i < n ==> vs[..n][i] == vs[i];
      front + (if vs[n].Keep? then [n] else [])
  }

  lemma {:induction false} EntriesOfKept(vs: seq<Verdict>)
    ensures var ks := KeptPositions(vs);
      |Entries(vs)| == |ks| && forall j :: 0 <= j < |ks| ==> Entries(vs)[j] == vs[ks[j]].entry
  {
    if vs != [] {
      var n := |vs| - 1;
      EntriesOfKept(vs[..n]);
      var ks, front := KeptPositions(vs), KeptPositions(vs[..n]);
      var es, frontEs := Entries(vs), Entries(vs[..n]);
      assert ks == front + (if vs[n].Keep? then [n] else []);
      assert es == frontEs + (if vs[n].Keep? then [vs[n].entry] else []);
      forall j | 0 <= j < |ks| ensures es[j] == vs[ks[j]].entry {
        if j < |front| {
          assert ks[j] == front[j] && es[j] == frontEs[j];
          assert vs[..n][front[j]] == vs[front[j]];
        }
      }
    }
  }

  /** The line numbers of the kept lines, in increasing order. */
  function KeptLines(lines: seq<String>, summaryToKey: map<String, String>): (ks: seq<nat>)
    ensures forall j :: 0 <= j < |ks| ==> ks[j] < |lines| && CheckLine(lines[ks[j]], summaryToKey).Keep?
    ensures forall j, k :: 0 <= j < k < |ks| ==> ks[j] < ks[k]
    ensures forall i :: 0 <= i < |lines| && CheckLine(lines[i], summaryToKey).Keep? ==> i in ks
  {
    KeptPositions(Verdicts(lines, LineCheck(summaryToKey)))
  }

  /** The dry run is exactly the entries of the kept lines, in the order of
      the file: no skipped line reaches submission and no kept line is lost
      or moved. */
  lemma DryRunOfKept(lines: seq<String>, summaryToKey: map<String, String>)
    ensures var ks := KeptLines(lines, summaryToKey);
      |DryRun(lines, summaryToKey)| == |ks| &&
      forall j :: 0 <= j < |ks| ==> DryRun(lines, summaryToKey)[j] == CheckLine(lines[ks[j]], summaryToKey).entry
  {
    EntriesOfKept(Verdicts(lines, LineCheck(summaryToKey)));
  }

  /** The first loop of `upload_file`, with the body of one iteration given
      as `check`: append the work log of each kept line, flash the notice of
      each skipped one. */
  method CheckLines(lines: seq<String>, check: String -> Verdict)
    returns (dryRun: seq<Worklog>, flashed: seq<Notice>)
    ensures dryRun == Entries(Verdicts(lines, check))
    ensures flashed == Skips(Verdicts(lines, check))
  {
    ghost var vs := Verdicts(lines, check);
    dryRun := [];
    flashed := [];
    for i := 0 to |lines|
      invariant dryRun == Entries(vs[..i])
      invariant flashed == Skips(vs[..i])
    {
      assert vs[..i + 1][..i] == vs[..i];
      var v := check(lines[i]);
      assert v == vs[i];
      match v
      case Keep(entry) =>
        dryRun := dryRun + [entry];
      case Skip(notice) =>
        flashed := flashed + [notice];
    }
    assert vs[..|lines|] == vs;
  }

  /** `upload_file` on POST. `file` is the decoded upload, absent when no
      file was chosen; `tasks` is what the fetch of assigned issues gave. */
  method UploadFile(file: Option<String>, tasks: seq<Task>, tracker: Tracker)
    returns (flashed: seq<Notice>, target: Redirect)
    modifies tracker
    ensures file.None? ==>
      flashed == [Notice(Danger, "No file selected.")] && target == ToSamePage &&
      tracker.posted == old(tracker.posted)
    ensures file.Some? ==>
      var lines := SplitLines(file.value);
      var entries := DryRun(lines, SummaryToKey(tasks));
      var skips := SkipNotices(lines, SummaryToKey(tasks));
      tracker.posted == old(tracker.posted) + entries &&
      (entries == [] ==>
        flashed == skips + [Notice(Info, "No valid tasks to process.")] && target == ToSamePage) &&
      (entries != [] ==>
        flashed == skips + Notices(entries, tracker.server, |old(tracker.posted)|) && target == ToIndex)
  {
    if file.None? {
      flashed := [Notice(Danger, "No file selected.")];
      target := ToSamePage;
      return;
    }
    var lines := SplitLines(file.value);
    var dryRun, skips := CheckLines(lines, LineCheck(SummaryToKey(tasks)));
    if dryRun == [] {
      flashed := skips + [Notice(Info, "No valid tasks to process.")];
      target := ToSamePage;
      return;
    }
    var logged := LogEach(dryRun, tracker);
    flashed := skips + logged;
    target := ToIndex;
  }

  /** A space after the second comma is part of the date field, which then
      does not parse: such a line is skipped for its date, whatever follows. */
  lemma SpaceBeforeDateIsSkipped(line: String, name: String, spent: String, date: String,
                                 summaryToKey: map<String, String>)
    requires Strip(line) == name + [','] + spent + [','] + " " + date
    requires ',' !in name && ',' !in spent && ',' !in date
    requires name in summaryToKey && summaryToKey[name] != []
    ensures CheckLine(line, summaryToKey) ==
      Skip(Notice(Danger, "Invalid date format for task " + name + ". Use YYYY-MM-DD HH:MM."))
  {
    SpacedDateFields(Strip(line), name, spent, date);
    SkippedLine(line, summaryToKey);
  }

  lemma SpacedDateFields(stripped: String, name: String, spent: String, date: String)
    requires stripped == name + [','] + spent + [','] + " " + date
    requires ',' !in name && ',' !in spent && ',' !in date
    ensures Split(stripped, ',') == [name, spent, " " + date]
    ensures Parse(" " + date, DateFirst).Err?
  {
    assert stripped == name + [','] + spent + [','] + (" " + date);
    SplitOfThreeFields(name, spent, " " + date, ',');
    DateFirstNeedsLeadingDigit(" " + date);
  }
}
