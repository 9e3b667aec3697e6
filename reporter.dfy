/** `Main` after the configuration: list the projects, compute every project's
    time, and write the report, here as a sequence of lines. */
module Reporter {
  import opened Common
  import opened TimeFormat
  import opened TimeAggregator
  import opened ProjectLister

  function ProjectLine(p: Project, seconds: int): string
  {
    "Project: " + p.name + ", Time Spent: " + FormatTimeSpent(seconds)
  }

  function IssueLine(id: int, e: IssueEntry): string
  {
    "\t Time Spent: " + FormatTimeSpent(e.seconds) + " | Issue: " + IntToString(id) + " - " + e.title
  }

  function TotalLine(seconds: int): string
  {
    "Total time spent: " + FormatTimeSpent(seconds)
  }

  /** The issue lines of a dictionary, in its enumeration order: one per entry
      with more than zero seconds. */
  function IssueLines(order: seq<int>, entries: map<int, IssueEntry>): seq<string>
  {
    if order == [] then []
    else
      var k := order[|order| - 1];
      IssueLines(order[..|order| - 1], entries)
      + (if k in entries && entries[k].seconds > 0 then [IssueLine(k, entries[k])] else [])
  }

  /** The lines of one project: none when its total is zero. */
  function ProjectBlock(p: Project, t: ProjectTime): seq<string>
  {
    if t.total == 0 then [] else [ProjectLine(p, t.total)] + IssueLines(t.breakdown.order, t.breakdown.entries)
  }

  /** The project blocks in list order; `times[i]` belongs to `projects[i]`. */
  function Sections(projects: seq<Project>, times: seq<ProjectTime>): seq<string>
    requires |times| == |projects|
  {
    if projects == [] then []
    else
      var n := |projects| - 1;
      Sections(projects[..n], times[..n]) + ProjectBlock(projects[n], times[n])
  }

  /** The sum of the totals the report prints, those that are not zero. */
  function ReportedTotal(times: seq<ProjectTime>): int
  {
    if times == [] then 0
    else
      var t := times[|times| - 1].total;
      ReportedTotal(times[..|times| - 1]) + (if t == 0 then 0 else t)
  }

  /** All lines: the project blocks, an empty line, the grand total. */
  function ReportLines(projects: seq<Project>, times: seq<ProjectTime>): seq<string>
    requires |times| == |projects|
  {
    Sections(projects, times) + ["", TotalLine(ReportedTotal(times))]
  }

  /** The inner `foreach` of the result loop: a line per entry with more than
      zero seconds, in the dictionary's enumeration order. */
  method PrintIssues(tasks: Breakdown) returns (lines: seq<string>)
    ensures lines == IssueLines(tasks.order, tasks.entries)
  {
    lines := [];
    for j := 0 to |tasks.order|
      invariant lines == IssueLines(tasks.order[..j], tasks.entries)
    {
      assert tasks.order[..j + 1][..j] == tasks.order[..j];
      var key := tasks.order[j];
      if key in tasks.entries && tasks.entries[key].seconds > 0 {
        lines := lines + [IssueLine(key, tasks.entries[key])];
      }
    }
    assert tasks.order[..|tasks.order|] == tasks.order;
  }

  /** The result loop of `Main`, with each `Console.WriteLine` appending a line. */
  method PrintReport(projects: seq<Project>, times: seq<ProjectTime>) returns (lines: seq<string>)
    requires |times| == |projects|
    ensures lines == ReportLines(projects, times)
  {
    var totalTimeSpent := 0;
    lines := [];
    for i := 0 to |projects|
      invariant totalTimeSpent == ReportedTotal(times[..i])
      invariant lines == Sections(projects[..i], times[..i])
    {
      SectionsSnoc(projects, times, i);
      var timeSpentSeconds := times[i].total;
      if timeSpentSeconds == 0 {
        continue;
      }
      totalTimeSpent := totalTimeSpent + timeSpentSeconds;
      var block := PrintProject(projects[i], times[i]);
      lines := lines + block;
    }
    assert projects[..|projects|] == projects && times[..|times|] == times;
    lines := lines + ["", TotalLine(totalTimeSpent)];
  }

  /** One turn of the result loop for a project with time: its line, then its issues. */
  method PrintProject(project: Project, t: ProjectTime) returns (lines: seq<string>)
    requires t.total != 0
    ensures lines == ProjectBlock(project, t)
  {
    lines := [ProjectLine(project, t.total)];
    var issueLines := PrintIssues(t.breakdown);
    lines := lines + issueLines;
  }

  /** One more turn of the result loop adds one project's block and its total. */
  lemma SectionsSnoc(projects: seq<Project>, times: seq<ProjectTime>, i: nat)
    requires |times| == |projects| && i < |projects|
    ensures Sections(projects[..i + 1], times[..i + 1]) == Sections(projects[..i], times[..i]) + ProjectBlock(projects[i], times[i])
    ensures ReportedTotal(times[..i + 1]) == ReportedTotal(times[..i]) + (if times[i].total == 0 then 0 else times[i].total)
  {
    assert projects[..i + 1][..i] == projects[..i];
    assert times[..i + 1][..i] == times[..i];
  }

  /** The sum of all totals. */
  function SumTotals(times: seq<ProjectTime>): int
  {
    if times == [] then 0 else SumTotals(times[..|times| - 1]) + times[|times| - 1].total
  }

  /** The grand total, the sum of the printed project totals, is the sum of
      all project totals. The step is trivial on purpose: a skipped project
      adds 0 either way, and the lemma records that the `continue` loses no time. */
  lemma {:induction false} ReportedTotalIsSum(times: seq<ProjectTime>)
    ensures ReportedTotal(times) == SumTotals(times)
  {
    if times != [] {
      ReportedTotalIsSum(times[..|times| - 1]);
    }
  }

  function Without<T>(s: seq<T>, i: nat): seq<T>
    requires i < |s|
  {
    s[..i] + s[i + 1..]
  }

  lemma WithoutFront<T>(s: seq<T>, i: nat)
    requires i < |s| - 1
    ensures |Without(s, i)| == |s| - 1
    ensures Without(s, i)[..|s| - 2] == Without(s[..|s| - 1], i)
    ensures Without(s, i)[|s| - 2] == s[|s| - 1]
  {
  }

  lemma {:induction false} SectionsWithoutZero(projects: seq<Project>, times: seq<ProjectTime>, i: nat)
    requires |times| == |projects| && i < |projects| && times[i].total == 0
    ensures Sections(projects, times) == Sections(Without(projects, i), Without(times, i))
    ensures ReportedTotal(times) == ReportedTotal(Without(times, i))
  {
    var n := |projects| - 1;
    if i == n {
      assert Without(projects, i) == projects[..n];
      assert Without(times, i) == times[..n];
    } else {
      SectionsWithoutZero(projects[..n], times[..n], i);
      WithoutFront(projects, i);
      WithoutFront(times, i);
    }
  }

  /** A project whose total is zero leaves no trace on the report: the report
      is the one of the list without it. */
  lemma ZeroTotalProjectOmitted(projects: seq<Project>, times: seq<ProjectTime>, i: nat)
    requires |times| == |projects| && i < |projects| && times[i].total == 0
    ensures ReportLines(projects, times) == ReportLines(Without(projects, i), Without(times, i))
  {
    SectionsWithoutZero(projects, times, i);
  }

  /** The issue lines are exactly the lines of the entries with more than zero
      seconds. */
  lemma {:induction false} IssueLinesExactly(order: seq<int>, entries: map<int, IssueEntry>)
    ensures forall line :: line in IssueLines(order, entries) <==>
      exists k :: k in order && k in entries && entries[k].seconds > 0 && line == IssueLine(k, entries[k])
  {
    if order != [] {
      var front := order[..|order| - 1];
      IssueLinesExactly(front, entries);
      assert forall k :: k in order <==> k in front || k == order[|order| - 1];
    }
  }

  /** The keys of a dictionary whose entries get a line. */
  function ShownKeys(order: seq<int>, entries: map<int, IssueEntry>): set<int>
  {
    set k | k in order && k in entries && entries[k].seconds > 0
  }

  /** One line per shown entry: with no key listed twice (as in a dictionary),
      there are exactly as many issue lines as entries with more than zero seconds. */
  lemma {:induction false} IssueLinesCount(order: seq<int>, entries: map<int, IssueEntry>)
    requires Distinct(order)
    ensures |IssueLines(order, entries)| == |ShownKeys(order, entries)|
  {
    if order != [] {
      var n := |order| - 1;
      var front := order[..n];
      var k := order[n];
      assert Distinct(front);
      IssueLinesCount(front, entries);
      assert k !in front by {
        forall i | 0 <= i < n
          ensures front[i] != k
        {
          assert order[i] != order[n];
        }
      }
      if k in entries && entries[k].seconds > 0 {
        assert ShownKeys(order, entries) == ShownKeys(front, entries) + {k};
      } else {
        assert ShownKeys(order, entries) == ShownKeys(front, entries);
      }
    }
  }

  /** For the dictionary the fold builds: one issue line per entry with more
      than zero seconds, as the inner `foreach` writes them. */
  lemma AggregateIssueLineCount(records: seq<IssueRecord>)
    requires Aggregate(records).Ok?
    ensures var b := Aggregate(records).value.breakdown;
      |IssueLines(b.order, b.entries)| == |set k | k in b.entries && b.entries[k].seconds > 0|
  {
    var b := Aggregate(records).value.breakdown;
    AggregateKeys(records);
    IssueLinesCount(b.order, b.entries);
    var shown := set k | k in b.entries && b.entries[k].seconds > 0;
    forall k | k in shown
      ensures k in ShownKeys(b.order, b.entries)
    {
      assert k in b.order;
    }
    assert ShownKeys(b.order, b.entries) == shown;
  }

  predicate IsProjectLine(line: string)
  {
    |line| >= 9 && line[..9] == "Project: "
  }

  /** The project lines among `lines`, in order. */
  function ProjectLines(lines: seq<string>): seq<string>
  {
    if lines == [] then []
    else ProjectLines(lines[..|lines| - 1]) + (if IsProjectLine(lines[|lines| - 1]) then [lines[|lines| - 1]] else [])
  }

  /** The line of each project with a total that is not zero, in list order. */
  function KeptProjectLines(projects: seq<Project>, times: seq<ProjectTime>): seq<string>
    requires |times| == |projects|
  {
    if projects == [] then []
    else
      var n := |projects| - 1;
      KeptProjectLines(projects[..n], times[..n])
      + (if times[n].total != 0 then [ProjectLine(projects[n], times[n].total)] else [])
  }

  lemma {:induction false} ProjectLinesAppend(a: seq<string>, b: seq<string>)
    ensures ProjectLines(a + b) == ProjectLines(a) + ProjectLines(b)
    decreases |b|
  {
    if b == [] {
      assert a + b == a;
    } else {
      var b' := b[..|b| - 1];
      assert (a + b)[..|a + b| - 1] == a + b';
      assert (a + b)[|a + b| - 1] == b[|b| - 1];
      ProjectLinesAppend(a, b');
    }
  }

  lemma IssueLineIsNoProjectLine(id: int, e: IssueEntry)
    ensures !IsProjectLine(IssueLine(id, e))
  {
    assert IssueLine(id, e)[0] == '\t';
  }

  lemma {:induction false} NoProjectLineAmongIssues(order: seq<int>, entries: map<int, IssueEntry>)
    ensures ProjectLines(IssueLines(order, entries)) == []
  {
    if order != [] {
      var k := order[|order| - 1];
      var front := IssueLines(order[..|order| - 1], entries);
      var last := if k in entries && entries[k].seconds > 0 then [IssueLine(k, entries[k])] else [];
      NoProjectLineAmongIssues(order[..|order| - 1], entries);
      ProjectLinesAppend(front, last);
      if last != [] {
        IssueLineIsNoProjectLine(k, entries[k]);
        assert last[..0] == [];
      }
    }
  }

  /** The report holds one project line for each project whose total is not
      zero, in list order, and no other. */
  lemma {:induction false} ProjectLinesInOrder(projects: seq<Project>, times: seq<ProjectTime>)
    requires |times| == |projects|
    ensures ProjectLines(ReportLines(projects, times)) == KeptProjectLines(projects, times)
  {
    SectionsProjectLines(projects, times);
    var tail := ["", TotalLine(ReportedTotal(times))];
    ProjectLinesAppend(Sections(projects, times), tail);
    TrailerHasNoProjectLine(ReportedTotal(times));
  }

  /** The empty line and the grand total are no project lines. */
  lemma TrailerHasNoProjectLine(seconds: int)
    ensures ProjectLines(["", TotalLine(seconds)]) == []
  {
    var line := TotalLine(seconds);
    assert line == "Total time spent: " + FormatTimeSpent(seconds);
    assert line[0] == 'T';
    var tail := ["", line];
    assert tail[..1] == [""] && [""][..0] == [];
  }

  lemma ProjectLineIsProjectLine(p: Project, seconds: int)
    ensures IsProjectLine(ProjectLine(p, seconds))
  {
    assert ProjectLine(p, seconds)[..9] == "Project: ";
  }

  /** The project lines of one block: its heading when its total is not zero. */
  lemma BlockProjectLines(p: Project, t: ProjectTime)
    ensures ProjectLines(ProjectBlock(p, t)) == if t.total != 0 then [ProjectLine(p, t.total)] else []
  {
    if t.total != 0 {
      var head := [ProjectLine(p, t.total)];
      var issues := IssueLines(t.breakdown.order, t.breakdown.entries);
      assert ProjectBlock(p, t) == head + issues;
      ProjectLinesAppend(head, issues);
      NoProjectLineAmongIssues(t.breakdown.order, t.breakdown.entries);
      ProjectLineIsProjectLine(p, t.total);
      assert head[..0] == [];
    }
  }

  lemma {:induction false} SectionsProjectLines(projects: seq<Project>, times: seq<ProjectTime>)
    requires |times| == |projects|
    ensures ProjectLines(Sections(projects, times)) == KeptProjectLines(projects, times)
  {
    if projects != [] {
      var n := |projects| - 1;
      SectionsProjectLines(projects[..n], times[..n]);
      ProjectLinesAppend(Sections(projects[..n], times[..n]), ProjectBlock(projects[n], times[n]));
      BlockProjectLines(projects[n], times[n]);
    }
  }

  // The whole run.

  /** The server's answer to the issues request of one project. */
  datatype IssuesResponse = Issues(records: seq<IssueRecord>) | IssuesFailed

  /** The task of one project: its issues request, then the aggregation. */
  function ProjectTimeOf(p: Project, response: IssuesResponse): Result<ProjectTime>
  {
    match response
    case IssuesFailed => Err(IssuesRequestFailed(p.id))
    case Issues(records) => Aggregate(records)
  }

  /** The tasks of all projects, joined: the times in list order, or the failure
      of the first project in the list whose task fails. */
  function CollectTimes(projects: seq<Project>, issuesOf: int -> IssuesResponse): (r: Result<seq<ProjectTime>>)
    ensures r.Ok? <==> forall i :: 0 <= i < |projects| ==> ProjectTimeOf(projects[i], issuesOf(projects[i].id)).Ok?
    ensures r.Ok? ==> |r.value| == |projects|
    ensures r.Ok? ==>
      forall i :: 0 <= i < |projects| ==> r.value[i] == ProjectTimeOf(projects[i], issuesOf(projects[i].id)).value
  {
    if projects == [] then Ok([])
    else
      var n := |projects| - 1;
      match CollectTimes(projects[..n], issuesOf)
      case Err(e) => Err(e)
      case Ok(ts) =>
        match ProjectTimeOf(projects[n], issuesOf(projects[n].id))
        case Err(e) => Err(e)
        case Ok(t) => Ok(ts + [t])
  }

  lemma {:induction false} CollectStopsAtFailure(projects: seq<Project>, issuesOf: int -> IssuesResponse, n: nat)
    requires n <= |projects|
    requires CollectTimes(projects[..n], issuesOf).Err?
    ensures CollectTimes(projects, issuesOf) == CollectTimes(projects[..n], issuesOf)
    decreases |projects|
  {
    if n == |projects| {
      assert projects[..n] == projects;
    } else {
      var front := projects[..|projects| - 1];
      assert front[..n] == projects[..n];
      CollectStopsAtFailure(front, issuesOf, n);
    }
  }

  /** The report of a run: nothing but the first failure if any request or
      aggregation fails, otherwise the lines. `issuesOf(id)` is the answer to
      the issues request of the project with that id. */
  function Report(server: seq<PageResponse>, issuesOf: int -> IssuesResponse): Result<seq<string>>
    requires EventuallyEnds(server)
  {
    match ListProjects(server)
    case Err(e) => Err(e)
    case Ok(projects) =>
      match CollectTimes(projects, issuesOf)
      case Err(e) => Err(e)
      case Ok(times) => Ok(ReportLines(projects, times))
  }

  /** One task of the fan-out: request a project's issues and fold them. */
  method GetProjectTime(project: Project, issuesOf: int -> IssuesResponse) returns (t: Result<ProjectTime>)
    ensures t == ProjectTimeOf(project, issuesOf(project.id))
  {
    match issuesOf(project.id) {
      case IssuesFailed =>
        t := Err(IssuesRequestFailed(project.id));
      case Issues(records) =>
        t := GetTimeSpentForProject(records);
    }
  }

  /** The fan-out and the join: one task per project, in list order; the
      first failing task makes the join fail. */
  method GetProjectTimes(projects: seq<Project>, issuesOf: int -> IssuesResponse) returns (r: Result<seq<ProjectTime>>)
    ensures r == CollectTimes(projects, issuesOf)
  {
    var times: seq<ProjectTime> := [];
    for i := 0 to |projects|
      invariant CollectTimes(projects[..i], issuesOf) == Ok(times)
    {
      assert projects[..i + 1][..i] == projects[..i];
      var t := GetProjectTime(projects[i], issuesOf);
      if t.Err? {
        CollectStopsAtFailure(projects, issuesOf, i + 1);
        r := Err(t.failure);
        return;
      }
      times := times + [t.value];
    }
    assert projects[..|projects|] == projects;
    r := Ok(times);
  }

  /** `Main`: the listing, then one task per project with the results taken by
      index, then the report. */
  method RunReport(server: seq<PageResponse>, issuesOf: int -> IssuesResponse) returns (r: Result<seq<string>>)
    requires EventuallyEnds(server)
    ensures r == Report(server, issuesOf)
  {
    var listing, requested := GetProjectsForUser(server);
    if listing.Err? {
      r := Err(listing.failure);
      return;
    }
    var projects := listing.value;
    var times := GetProjectTimes(projects, issuesOf);
    if times.Err? {
      r := Err(times.failure);
      return;
    }
    var lines := PrintReport(projects, times.value);
    r := Ok(lines);
  }


  /** A failed join carries the failure of the first project, in list order,
      whose task fails. */
  lemma {:induction false} CollectFirstFailure(projects: seq<Project>, issuesOf: int -> IssuesResponse)
    ensures CollectTimes(projects, issuesOf).Err? ==>
      exists i :: && 0 <= i < |projects| && ProjectTimeOf(projects[i], issuesOf(projects[i].id)).Err?
                  && CollectTimes(projects, issuesOf).failure == ProjectTimeOf(projects[i], issuesOf(projects[i].id)).failure
                  && forall j :: 0 <= j < i ==> ProjectTimeOf(projects[j], issuesOf(projects[j].id)).Ok?
  {
    if projects != [] {
      var n := |projects| - 1;
      var front := projects[..n];
      CollectFirstFailure(front, issuesOf);
      forall j | 0 <= j < n
        ensures projects[j] == front[j]
      {
      }
      if CollectTimes(front, issuesOf).Err? {
        var i :| && 0 <= i < |front| && ProjectTimeOf(front[i], issuesOf(front[i].id)).Err?
                 && CollectTimes(front, issuesOf).failure == ProjectTimeOf(front[i], issuesOf(front[i].id)).failure
                 && forall j :: 0 <= j < i ==> ProjectTimeOf(front[j], issuesOf(front[j].id)).Ok?;
        assert projects[i] == front[i];
      } else if CollectTimes(projects, issuesOf).Err? {
        assert forall j :: 0 <= j < n ==> ProjectTimeOf(projects[j], issuesOf(projects[j].id)).Ok?;
      }
    }
  }

  /** A run fails exactly when the listing fails or the task of some listed
      project fails; a failed run prints nothing. */
  lemma ReportFails(server: seq<PageResponse>, issuesOf: int -> IssuesResponse)
    requires EventuallyEnds(server)
    ensures Report(server, issuesOf).Err? <==>
      || ListProjects(server).Err?
      || exists i :: 0 <= i < |ListProjects(server).value|
           && ProjectTimeOf(ListProjects(server).value[i], issuesOf(ListProjects(server).value[i].id)).Err?
  {
  }
}
