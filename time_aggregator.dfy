/** `GetTimeSpentForProject` from the decoded issues on: the project total and
    the per-issue dictionary. */
module TimeAggregator {
  import opened Common

  /** `time_stats.total_time_spent` of an issue: an integer token, or a token
      that is absent or not an integer. */
  datatype TimeValue = IntVal(n: int) | Missing

  /** One element of the issues array. `iid` is `None` when it is absent or not
      an integer; `title` is `None` when it is absent or not a string. */
  datatype IssueRecord = IssueRecord(iid: Option<int>, title: Option<string>, time: TimeValue)

  /** A value of the dictionary: the issue's description and its seconds. */
  datatype IssueEntry = IssueEntry(title: string, seconds: int)

  /** The dictionary keyed by issue number. `order` is the order in which its
      keys were first added, used as the dictionary's enumeration order. */
  datatype Breakdown = Breakdown(order: seq<int>, entries: map<int, IssueEntry>)

  /** What `GetTimeSpentForProject` returns: the total and the dictionary. */
  datatype ProjectTime = ProjectTime(total: int, breakdown: Breakdown)

  predicate Distinct(s: seq<int>)
  {
    forall i, j :: 0 <= i < j < |s| ==> s[i] != s[j]
  }

  /** The enumeration order lists every key exactly once. */
  predicate WellFormed(b: Breakdown)
  {
    && Distinct(b.order)
    && (forall k :: k in b.entries ==> k in b.order)
    && (forall i :: 0 <= i < |b.order| ==> b.order[i] in b.entries)
  }

  /** What a record adds to the project total: its time when that is an integer. */
  function TimeOf(rec: IssueRecord): int
  {
    if rec.time.IntVal? then rec.time.n else 0
  }

  /** The description stored for a record: its title when that is a string. */
  function TitleOf(rec: IssueRecord): string
  {
    if rec.title.Some? then rec.title.value else ""
  }

  /** A record whose integer issue number makes `(int)timeSpentToken` throw. */
  predicate Fails(rec: IssueRecord)
  {
    rec.iid.Some? && rec.time.Missing?
  }

  /** One turn of the `foreach`: add the time to the total, then add or
      overwrite the entry of the issue number. */
  function Step(acc: ProjectTime, rec: IssueRecord): (r: Result<ProjectTime>)
    ensures r.Err? <==> Fails(rec)
    ensures r.Ok? ==> r.value.total == acc.total + TimeOf(rec)
    ensures r.Ok? ==> forall k :: Some(k) != rec.iid ==>
      && (k in r.value.breakdown.entries <==> k in acc.breakdown.entries)
      && (k in acc.breakdown.entries ==> r.value.breakdown.entries[k] == acc.breakdown.entries[k])
    ensures r.Ok? && WellFormed(acc.breakdown) ==> WellFormed(r.value.breakdown)
  {
    var total := acc.total + TimeOf(rec);
    match rec.iid
    case None => Ok(ProjectTime(total, acc.breakdown))
    case Some(id) =>
      if rec.time.Missing? then Err(MissingTimeSpent(id))
      else
        var b := acc.breakdown;
        if id in b.entries then
          Ok(ProjectTime(total, Breakdown(b.order, b.entries[id := IssueEntry(TitleOf(rec), rec.time.n + b.entries[id].seconds)])))
        else
          Ok(ProjectTime(total, Breakdown(b.order + [id], b.entries[id := IssueEntry(TitleOf(rec), rec.time.n)])))
  }

  /** The fold of `Step` over the records, from a zero total and an empty
      dictionary; the first failure ends it. */
  function Aggregate(records: seq<IssueRecord>): Result<ProjectTime>
  {
    if records == [] then Ok(ProjectTime(0, Breakdown([], map[])))
    else match Aggregate(records[..|records| - 1])
      case Err(e) => Err(e)
      case Ok(acc) => Step(acc, records[|records| - 1])
  }

  /** `GetTimeSpentForProject` after the issues are decoded: the `foreach`
      over the records, updating the total and the dictionary in place. */
  method GetTimeSpentForProject(issues: seq<IssueRecord>) returns (r: Result<ProjectTime>)
    ensures r == Aggregate(issues)
  {
    var totalTimeSpent := 0;
    var order: seq<int> := [];
    var entries: map<int, IssueEntry> := map[];
    for i := 0 to |issues|
      invariant Aggregate(issues[..i]) == Ok(ProjectTime(totalTimeSpent, Breakdown(order, entries)))
    {
      var issue := issues[i];
      assert issues[..i + 1][..i] == issues[..i];
      assert Aggregate(issues[..i + 1]) == Step(ProjectTime(totalTimeSpent, Breakdown(order, entries)), issue);
      if issue.time.IntVal? {
        totalTimeSpent := totalTimeSpent + issue.time.n;
      }
      if issue.iid.Some? {
        var id := issue.iid.value;
        var descr := "";
        if issue.title.Some? {
          descr := issue.title.value;
        }
        if issue.time.Missing? {
          AggregateStopsAtFailure(issues, i + 1);
          r := Err(MissingTimeSpent(id));
          return;
        }
        if id in entries {
          entries := entries[id := IssueEntry(descr, issue.time.n + entries[id].seconds)];
        } else {
          order := order + [id];
          entries := entries[id := IssueEntry(descr, issue.time.n)];
        }
      }
    }
    assert issues[..|issues|] == issues;
    r := Ok(ProjectTime(totalTimeSpent, Breakdown(order, entries)));
  }

  /** Once a prefix fails, the whole fold fails the same way. */
  lemma {:induction false} AggregateStopsAtFailure(records: seq<IssueRecord>, n: nat)
    requires n <= |records|
    requires Aggregate(records[..n]).Err?
    ensures Aggregate(records) == Aggregate(records[..n])
    decreases |records|
  {
    if n == |records| {
      assert records[..n] == records;
    } else {
      var front := records[..|records| - 1];
      assert front[..n] == records[..n];
      AggregateStopsAtFailure(front, n);
    }
  }

  // Reference definitions, each by recursion on the last record.

  /** The sum of the integer times of all records, keyed or not. */
  function TotalTime(records: seq<IssueRecord>): int
  {
    if records == [] then 0 else TotalTime(records[..|records| - 1]) + TimeOf(records[|records| - 1])
  }

  /** The sum of the times of the records with issue number `id`. */
  function TimeFor(records: seq<IssueRecord>, id: int): int
  {
    if records == [] then 0
    else
      var last := records[|records| - 1];
      TimeFor(records[..|records| - 1], id) + (if last.iid == Some(id) then TimeOf(last) else 0)
  }

  /** The sum of the times of the records without an integer issue number. */
  function UnkeyedTime(records: seq<IssueRecord>): int
  {
    if records == [] then 0
    else
      var last := records[|records| - 1];
      UnkeyedTime(records[..|records| - 1]) + (if last.iid.None? then TimeOf(last) else 0)
  }

  /** The description of the last record with issue number `id`. */
  function LastTitle(records: seq<IssueRecord>, id: int): string
  {
    if records == [] then ""
    else if records[|records| - 1].iid == Some(id) then TitleOf(records[|records| - 1])
    else LastTitle(records[..|records| - 1], id)
  }

  /** The integer issue numbers that occur. */
  function IssueNumbers(records: seq<IssueRecord>): set<int>
  {
    set i | 0 <= i < |records| && records[i].iid.Some? :: records[i].iid.value
  }

  /** The sum of the seconds of the keys listed in `order`. */
  function SumSeconds(order: seq<int>, entries: map<int, IssueEntry>): int
  {
    if order == [] then 0
    else
      var k := order[|order| - 1];
      SumSeconds(order[..|order| - 1], entries) + (if k in entries then entries[k].seconds else 0)
  }

  lemma IssueNumbersSnoc(records: seq<IssueRecord>)
    requires records != []
    ensures var last := records[|records| - 1];
      IssueNumbers(records)
        == IssueNumbers(records[..|records| - 1]) + (if last.iid.Some? then {last.iid.value} else {})
  {
    var front := records[..|records| - 1];
    var last := records[|records| - 1];
    forall k | k in IssueNumbers(records)
      ensures k in IssueNumbers(front) || last.iid == Some(k)
    {
      var i :| 0 <= i < |records| && records[i].iid == Some(k);
      if i < |front| {
        assert front[i] == records[i];
      }
    }
    forall k | k in IssueNumbers(front)
      ensures k in IssueNumbers(records)
    {
      var i :| 0 <= i < |front| && front[i].iid == Some(k);
      assert records[i] == front[i];
    }
    if last.iid.Some? {
      assert records[|records| - 1].iid.value in IssueNumbers(records);
    }
  }

  /** An issue number that does not occur has no time. */
  lemma {:induction false} TimeForAbsent(records: seq<IssueRecord>, id: int)
    requires id !in IssueNumbers(records)
    ensures TimeFor(records, id) == 0
  {
    if records != [] {
      IssueNumbersSnoc(records);
      TimeForAbsent(records[..|records| - 1], id);
    }
  }

  /** Replacing one entry changes the sum by the difference of its seconds. */
  lemma {:induction false} SumSecondsUpdate(order: seq<int>, entries: map<int, IssueEntry>, id: int, e: IssueEntry)
    requires Distinct(order)
    ensures SumSeconds(order, entries[id := e])
      == SumSeconds(order, entries)
         + (if id in order then e.seconds - (if id in entries then entries[id].seconds else 0) else 0)
  {
    if order != [] {
      var front := order[..|order| - 1];
      assert Distinct(front);
      SumSecondsUpdate(front, entries, id, e);
      if order[|order| - 1] == id {
        assert id !in front;
      }
      assert id in order <==> id in front || order[|order| - 1] == id;
    }
  }

  /** A fold that fails fails at its first record with an integer issue
      number and no integer time; it fails exactly when there is one. */
  lemma {:induction false} AggregateFailure(records: seq<IssueRecord>)
    ensures Aggregate(records).Err? <==> exists i :: 0 <= i < |records| && Fails(records[i])
    ensures Aggregate(records).Err? ==>
      exists i :: && 0 <= i < |records| && Fails(records[i])
                  && Aggregate(records).failure == MissingTimeSpent(records[i].iid.value)
                  && forall j :: 0 <= j < i ==> !Fails(records[j])
  {
    if records != [] {
      var front := records[..|records| - 1];
      var n := |records| - 1;
      AggregateFailure(front);
      forall j | 0 <= j < n
        ensures records[j] == front[j]
      {
      }
      if Aggregate(front).Err? {
        var i :| 0 <= i < |front| && Fails(front[i])
          && Aggregate(front).failure == MissingTimeSpent(front[i].iid.value)
          && forall j :: 0 <= j < i ==> !Fails(front[j]);
        assert Fails(records[i]);
      } else {
        if Fails(records[n]) {
          assert forall j :: 0 <= j < n ==> !Fails(records[j]);
        }
      }
    }
  }

  /** A successful fold keeps every issue number once in the enumeration
      order, and its keys are exactly the integer issue numbers that occur. */
  lemma {:induction false} AggregateKeys(records: seq<IssueRecord>)
    requires Aggregate(records).Ok?
    ensures WellFormed(Aggregate(records).value.breakdown)
    ensures Aggregate(records).value.breakdown.entries.Keys == IssueNumbers(records)
  {
    if records == [] {
      assert IssueNumbers(records) == {};
    } else {
      var front := records[..|records| - 1];
      assert Aggregate(front).Ok?;
      AggregateKeys(front);
      IssueNumbersSnoc(records);
    }
  }

  /** The project total is the sum of the integer times of all records,
      including those without an integer issue number. */
  lemma {:induction false} AggregateTotal(records: seq<IssueRecord>)
    requires Aggregate(records).Ok?
    ensures Aggregate(records).value.total == TotalTime(records)
  {
    if records != [] {
      var front := records[..|records| - 1];
      assert Aggregate(front).Ok?;
      AggregateTotal(front);
    }
  }

  /** Each entry holds the sum of the times of the records with its issue
      number, and the description of the last of them. */
  lemma {:induction false} AggregateEntries(records: seq<IssueRecord>)
    requires Aggregate(records).Ok?
    ensures var entries := Aggregate(records).value.breakdown.entries;
      forall id :: id in entries ==> entries[id] == IssueEntry(LastTitle(records, id), TimeFor(records, id))
  {
    if records != [] {
      var front := records[..|records| - 1];
      var rec := records[|records| - 1];
      assert Aggregate(front).Ok?;
      AggregateEntries(front);
      AggregateKeys(front);
      var b := Aggregate(front).value.breakdown;
      if rec.iid.Some? && rec.iid.value !in b.entries {
        TimeForAbsent(front, rec.iid.value);
      }
    }
  }

  /** The project total is the sum of the entries' seconds plus the time of the
      records without an integer issue number. */
  lemma {:induction false} AggregateTotalSplit(records: seq<IssueRecord>)
    requires Aggregate(records).Ok?
    ensures var p := Aggregate(records).value;
      p.total == SumSeconds(p.breakdown.order, p.breakdown.entries) + UnkeyedTime(records)
  {
    if records != [] {
      var front := records[..|records| - 1];
      var rec := records[|records| - 1];
      assert Aggregate(front).Ok?;
      AggregateTotalSplit(front);
      AggregateKeys(front);
      var b := Aggregate(front).value.breakdown;
      var p := Aggregate(records).value;
      if rec.iid.Some? {
        var id := rec.iid.value;
        var e := p.breakdown.entries[id];
        SumSecondsUpdate(b.order, b.entries, id, e);
        if id !in b.entries {
          assert id !in b.order;
          assert p.breakdown.order[..|p.breakdown.order| - 1] == b.order;
        }
      }
    }
  }
}
