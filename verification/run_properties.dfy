/** Properties of a whole run of the worklog fold, stated in terms of the
    issues and their fetched entries. */
module RunProperties {
  import opened Options
  import opened Sums
  import opened Worklogs
  import opened WorklogProperties
  import Text

  /** Issue keys are unique in the search result. */
  predicate UniqueKeys(issues: seq<FetchedIssue>) {
    forall i, j :: 0 <= i < j < |issues| ==> issues[i].key != issues[j].key
  }

  /** `issue_total_hours` of one issue: the hours of its counted entries,
      zero when its worklogs could not be fetched. */
  function IssueTotal(fi: FetchedIssue, range: Range, parse: Parser): real {
    TotalHours(IssueContributions(fi, range, parse))
  }

  /** Entry `j` of issue `i` exists, was fetched and is counted. */
  predicate CountedAt(issues: seq<FetchedIssue>, i: int, j: int, range: Range, parse: Parser) {
    && 0 <= i < |issues|
    && issues[i].worklogs.Some?
    && 0 <= j < |issues[i].worklogs.value|
    && Counted(issues[i].worklogs.value[j], range, parse)
  }

  /** The user tables of a run summarise its contributions. */
  lemma RunSummarises(issues: seq<FetchedIssue>, range: Range, parse: Parser)
    ensures Summarises(ProcessWorklogs(issues, range, parse).users, Contributions(issues, range, parse))
  {
    FoldSummarises(Contributions(issues, range, parse));
  }

  lemma {:induction false} AuthorsMembers(cs: seq<Contribution>)
    ensures forall u :: u in Authors(cs) <==> exists c :: c in cs && c.author == u
    ensures forall u, k :: (u, k) in Pairs(cs) <==> exists c :: c in cs && c.author == u && c.key == k
    decreases |cs|
  {
    if |cs| > 0 {
      AuthorsMembers(cs[..|cs| - 1]);
      assert cs == cs[..|cs| - 1] + [cs[|cs| - 1]];
    }
  }

  /** The run's contributions are exactly those of its counted entries. */
  lemma ContributionsMembers(issues: seq<FetchedIssue>, range: Range, parse: Parser)
    ensures forall c :: c in Contributions(issues, range, parse) <==>
      exists i, j :: CountedAt(issues, i, j, range, parse) &&
                     c == ContributionOf(issues[i].key, issues[i].worklogs.value[j])
  {
    forall c | c in Contributions(issues, range, parse)
      ensures exists i, j :: CountedAt(issues, i, j, range, parse) &&
                             c == ContributionOf(issues[i].key, issues[i].worklogs.value[j])
    {
      ContributionSound(issues, c, range, parse);
    }
    forall i, j | CountedAt(issues, i, j, range, parse)
      ensures ContributionOf(issues[i].key, issues[i].worklogs.value[j]) in Contributions(issues, range, parse)
    {
      ContributionComplete(issues, i, j, range, parse);
    }
  }

  /** Every contribution of a run comes from a counted entry. */
  lemma {:induction false} ContributionSound(issues: seq<FetchedIssue>, c: Contribution, range: Range, parse: Parser)
    requires c in Contributions(issues, range, parse)
    ensures exists i, j :: CountedAt(issues, i, j, range, parse) &&
                           c == ContributionOf(issues[i].key, issues[i].worklogs.value[j])
    decreases |issues|
  {
    var p, x := issues[..|issues| - 1], issues[|issues| - 1];
    assert forall i :: 0 <= i < |p| ==> p[i] == issues[i];
    if c in Contributions(p, range, parse) {
      ContributionSound(p, c, range, parse);
      var i, j :| CountedAt(p, i, j, range, parse) && c == ContributionOf(p[i].key, p[i].worklogs.value[j]);
      assert CountedAt(issues, i, j, range, parse);
    } else {
      CountedInMembers(x.key, x.worklogs.value, range, parse);
      var j :| 0 <= j < |x.worklogs.value| && Counted(x.worklogs.value[j], range, parse) &&
               c == ContributionOf(x.key, x.worklogs.value[j]);
      assert CountedAt(issues, |issues| - 1, j, range, parse);
    }
  }

  /** Every counted entry gives a contribution of the run. */
  lemma {:induction false} ContributionComplete(issues: seq<FetchedIssue>, i: int, j: int, range: Range, parse: Parser)
    requires CountedAt(issues, i, j, range, parse)
    ensures ContributionOf(issues[i].key, issues[i].worklogs.value[j]) in Contributions(issues, range, parse)
    decreases |issues|
  {
    var p, x := issues[..|issues| - 1], issues[|issues| - 1];
    if i < |p| {
      assert p[i] == issues[i];
      assert CountedAt(p, i, j, range, parse);
      ContributionComplete(p, i, j, range, parse);
    } else {
      CountedInMembers(x.key, x.worklogs.value, range, parse);
    }
  }

  /** A user has a total, a name and a row exactly when some counted
      entry is theirs; a cell (u, k) exists exactly when some counted
      entry of issue k is theirs, even when its duration is zero. */
  lemma UserPresence(issues: seq<FetchedIssue>, range: Range, parse: Parser)
    ensures var t := ProcessWorklogs(issues, range, parse).users;
      && t.hours.Keys == t.names.Keys == t.cells.Keys
      && (forall u :: u in t.hours <==>
            exists i, j :: CountedAt(issues, i, j, range, parse) && issues[i].worklogs.value[j].authorId == u)
      && (forall u, k :: u in t.cells && k in t.cells[u] <==>
            exists i, j :: CountedAt(issues, i, j, range, parse) && issues[i].key == k &&
                           issues[i].worklogs.value[j].authorId == u)
  {
    var cs := Contributions(issues, range, parse);
    RunSummarises(issues, range, parse);
    AuthorsMembers(cs);
    ContributionsMembers(issues, range, parse);
    var t := ProcessWorklogs(issues, range, parse).users;
    forall u | u in t.hours
      ensures exists i, j :: CountedAt(issues, i, j, range, parse) && issues[i].worklogs.value[j].authorId == u
    {
      var c :| c in cs && c.author == u;
      var i, j :| CountedAt(issues, i, j, range, parse) && c == ContributionOf(issues[i].key, issues[i].worklogs.value[j]);
    }
    forall u, i, j | CountedAt(issues, i, j, range, parse) && issues[i].worklogs.value[j].authorId == u
      ensures u in t.hours
    {
      assert ContributionOf(issues[i].key, issues[i].worklogs.value[j]) in cs;
    }
    forall u, k | u in t.cells && k in t.cells[u]
      ensures exists i, j :: CountedAt(issues, i, j, range, parse) && issues[i].key == k &&
                             issues[i].worklogs.value[j].authorId == u
    {
      var c :| c in cs && c.author == u && c.key == k;
      var i, j :| CountedAt(issues, i, j, range, parse) && c == ContributionOf(issues[i].key, issues[i].worklogs.value[j]);
    }
    forall u, k, i, j | CountedAt(issues, i, j, range, parse) && issues[i].key == k &&
                        issues[i].worklogs.value[j].authorId == u
      ensures u in t.cells && k in t.cells[u]
    {
      assert ContributionOf(issues[i].key, issues[i].worklogs.value[j]) in cs;
    }
  }

  /** Every user's total is the sum of that user's (user, issue) cells. */
  lemma UserTotalIsSumOfCells(issues: seq<FetchedIssue>, range: Range, parse: Parser)
    ensures var t := ProcessWorklogs(issues, range, parse).users;
      && t.hours.Keys == t.cells.Keys
      && forall u :: u in t.hours ==> t.hours[u] == MapSum(t.cells[u])
  {
    RunSummarises(issues, range, parse);
  }

  /** A user's name is the display name of their last counted entry in
      processing order: a later entry by the same user overwrites it. */
  lemma UserNameIsLastWritten(issues: seq<FetchedIssue>, range: Range, parse: Parser)
    ensures var t, cs := ProcessWorklogs(issues, range, parse).users, Contributions(issues, range, parse);
      forall u :: u in t.names ==> IsLastNameOf(cs, u, t.names[u])
  {
    RunSummarises(issues, range, parse);
    NamesAreLast(ProcessWorklogs(issues, range, parse).users, Contributions(issues, range, parse));
  }

  /** `name` is carried by the last contribution of `u` in `cs`. */
  ghost predicate IsLastNameOf(cs: seq<Contribution>, u: UserId, name: string) {
    exists j :: 0 <= j < |cs| && cs[j].author == u && cs[j].name == name &&
                (forall j' :: j < j' < |cs| ==> cs[j'].author != u)
  }

  lemma NamesAreLast(ut: UserTables, cs: seq<Contribution>)
    requires ut.names.Keys == Authors(cs) && NamesMatch(ut, cs)
    ensures forall u :: u in ut.names ==> IsLastNameOf(cs, u, ut.names[u])
  {
    forall u | u in ut.names
      ensures IsLastNameOf(cs, u, ut.names[u])
    {
      assert ut.names[u] == LastName(cs, u);
    }
  }

  lemma {:induction false} KeyHoursAppend(a: seq<Contribution>, b: seq<Contribution>, k: IssueKey)
    ensures KeyHours(a + b, k) == KeyHours(a, k) + KeyHours(b, k)
    decreases |b|
  {
    if |b| == 0 {
      assert a + b == a;
    } else {
      KeyHoursAppend(a, b[..|b| - 1], k);
      assert (a + b)[..|a + b| - 1] == a + b[..|b| - 1];
    }
  }

  lemma {:induction false} KeyHoursOneKey(cs: seq<Contribution>, key: IssueKey, k: IssueKey)
    requires forall i :: 0 <= i < |cs| ==> cs[i].key == key
    ensures KeyHours(cs, k) == if k == key then TotalHours(cs) else 0.0
    decreases |cs|
  {
    if |cs| > 0 {
      KeyHoursOneKey(cs[..|cs| - 1], key, k);
    }
  }

  /** A key that no issue of the run carries has no hours recorded
      against it. */
  lemma {:induction false} KeyHoursOfUnknownKey(issues: seq<FetchedIssue>, range: Range, parse: Parser, k: IssueKey)
    requires forall i :: 0 <= i < |issues| ==> issues[i].key != k
    ensures KeyHours(Contributions(issues, range, parse), k) == 0.0
    decreases |issues|
  {
    if |issues| > 0 {
      var p := issues[..|issues| - 1];
      assert forall i :: 0 <= i < |p| ==> p[i] == issues[i];
      KeyHoursOfUnknownKey(p, range, parse, k);
      KeyHoursOfLastIssue(issues, range, parse, k);
    }
  }

  /** With unique keys, the hours a run records against an issue's key
      are that issue's in-range total. */
  lemma {:induction false} KeyHoursOfRun(issues: seq<FetchedIssue>, range: Range, parse: Parser, i: int)
    requires UniqueKeys(issues) && 0 <= i < |issues|
    ensures KeyHours(Contributions(issues, range, parse), issues[i].key) == IssueTotal(issues[i], range, parse)
    decreases |issues|
  {
    var p, x := issues[..|issues| - 1], issues[|issues| - 1];
    assert forall j :: 0 <= j < |p| ==> p[j] == issues[j];
    KeyHoursOfLastIssue(issues, range, parse, issues[i].key);
    if i == |issues| - 1 {
      KeyHoursOfUnknownKey(p, range, parse, x.key);
    } else {
      KeyHoursOfRun(p, range, parse, i);
    }
  }

  /** The last issue of a run adds its total to its own key and nothing
      to any other key. */
  lemma KeyHoursOfLastIssue(issues: seq<FetchedIssue>, range: Range, parse: Parser, k: IssueKey)
    requires |issues| > 0
    ensures var p, x := issues[..|issues| - 1], issues[|issues| - 1];
      KeyHours(Contributions(issues, range, parse), k) ==
      KeyHours(Contributions(p, range, parse), k) + (if k == x.key then IssueTotal(x, range, parse) else 0.0)
  {
    var p, x := issues[..|issues| - 1], issues[|issues| - 1];
    var cp, cx := Contributions(p, range, parse), IssueContributions(x, range, parse);
    KeyHoursAppend(cp, cx, k);
    KeyHoursOneKey(cx, x.key, k);
  }

  /** The issue table as a function of the run's contributions. */
  lemma {:induction false} IssueHoursOfContributions(issues: seq<FetchedIssue>, range: Range, parse: Parser)
    requires UniqueKeys(issues)
    ensures var t, cs := ProcessWorklogs(issues, range, parse), Contributions(issues, range, parse);
      forall k :: (k in t.issueHours <==> KeyHours(cs, k) > 0.0) &&
                  (k in t.issueHours ==> t.issueHours[k] == KeyHours(cs, k))
    decreases |issues|
  {
    if |issues| > 0 {
      var p, x := issues[..|issues| - 1], issues[|issues| - 1];
      var cp, cx := Contributions(p, range, parse), IssueContributions(x, range, parse);
      assert forall i :: 0 <= i < |p| ==> p[i] == issues[i];
      IssueHoursOfContributions(p, range, parse);
      KeyHoursOfUnknownKey(p, range, parse, x.key);
      forall k ensures KeyHours(Contributions(issues, range, parse), k) ==
                       KeyHours(cp, k) + (if k == x.key then TotalHours(cx) else 0.0) {
        KeyHoursOfLastIssue(issues, range, parse, k);
      }
    }
  }

  /** With unique keys, an issue has an entry in the issue table exactly
      when its worklogs were fetched and its in-range total is strictly
      positive, and that entry is the total; no other key appears. */
  lemma IssueHoursPresence(issues: seq<FetchedIssue>, range: Range, parse: Parser)
    requires UniqueKeys(issues)
    ensures var t := ProcessWorklogs(issues, range, parse);
      && (forall i :: 0 <= i < |issues| ==>
            (issues[i].key in t.issueHours <==> issues[i].worklogs.Some? && IssueTotal(issues[i], range, parse) > 0.0))
      && (forall i :: 0 <= i < |issues| && issues[i].key in t.issueHours ==>
            t.issueHours[issues[i].key] == IssueTotal(issues[i], range, parse))
      && (forall k :: k in t.issueHours ==> exists i :: 0 <= i < |issues| && issues[i].key == k)
  {
    IssueHoursOfContributions(issues, range, parse);
    forall i | 0 <= i < |issues| ensures
      KeyHours(Contributions(issues, range, parse), issues[i].key) == IssueTotal(issues[i], range, parse) {
      KeyHoursOfRun(issues, range, parse, i);
    }
    forall k | forall i :: 0 <= i < |issues| ==> issues[i].key != k
      ensures KeyHours(Contributions(issues, range, parse), k) == 0.0 {
      KeyHoursOfUnknownKey(issues, range, parse, k);
    }
  }

  /** With unique keys, every recorded issue total is the sum over users
      of their cells for that issue. */
  lemma IssueTotalIsSumOfCells(issues: seq<FetchedIssue>, range: Range, parse: Parser)
    requires UniqueKeys(issues)
    ensures var t := ProcessWorklogs(issues, range, parse);
      forall k :: k in t.issueHours ==> t.issueHours[k] == MapSum(Column(t.users.cells, k))
  {
    IssueHoursOfContributions(issues, range, parse);
    RunSummarises(issues, range, parse);
  }

  /** An issue whose counted entries add up to zero is absent from the
      issue table, while each of their authors still gets a total and a
      cell for it. */
  lemma ZeroTotalIssueStillTouched(issues: seq<FetchedIssue>, range: Range, parse: Parser, i: int, j: int)
    requires UniqueKeys(issues)
    requires CountedAt(issues, i, j, range, parse)
    requires IssueTotal(issues[i], range, parse) == 0.0
    ensures var t, u := ProcessWorklogs(issues, range, parse), issues[i].worklogs.value[j].authorId;
      && issues[i].key !in t.issueHours
      && u in t.users.hours
      && u in t.users.cells && issues[i].key in t.users.cells[u]
  {
    IssueHoursPresence(issues, range, parse);
    UserPresence(issues, range, parse);
  }

  lemma {:induction false} ProcessAllAppend(t: Tables, a: seq<FetchedIssue>, b: seq<FetchedIssue>, range: Range, parse: Parser)
    ensures ProcessAll(t, a + b, range, parse) == ProcessAll(ProcessAll(t, a, range, parse), b, range, parse)
    decreases |b|
  {
    if |b| == 0 {
      assert a + b == a;
    } else {
      ProcessAllAppend(t, a, b[..|b| - 1], range, parse);
      assert (a + b)[..|a + b| - 1] == a + b[..|b| - 1];
    }
  }

  lemma {:induction false} CountedInAppend(key: IssueKey, a: seq<Worklog>, b: seq<Worklog>, range: Range, parse: Parser)
    ensures CountedIn(key, a + b, range, parse) == CountedIn(key, a, range, parse) + CountedIn(key, b, range, parse)
    decreases |b|
  {
    if |b| == 0 {
      assert a + b == a;
    } else {
      CountedInAppend(key, a, b[..|b| - 1], range, parse);
      assert (a + b)[..|a + b| - 1] == a + b[..|b| - 1];
    }
  }

  /** Two issues with the same key and the same counted entries have the
      same effect on the tables. */
  lemma SameContributionsSameEffect(t: Tables, x: FetchedIssue, y: FetchedIssue, range: Range, parse: Parser)
    requires x.key == y.key
    requires IssueContributions(x, range, parse) == IssueContributions(y, range, parse)
    ensures ProcessIssue(t, x, range, parse) == ProcessIssue(t, y, range, parse)
  {
    var rx, ry := ProcessIssue(t, x, range, parse), ProcessIssue(t, y, range, parse);
    assert rx.issueHours == ry.issueHours;
  }

  /** The search result with `w` inserted at position `j` of the fetched
      entries of issue `i`. */
  function InsertEntry(issues: seq<FetchedIssue>, i: int, j: int, w: Worklog): seq<FetchedIssue>
    requires 0 <= i < |issues| && issues[i].worklogs.Some? && 0 <= j <= |issues[i].worklogs.value|
  {
    var ws := issues[i].worklogs.value;
    issues[i := FetchedIssue(issues[i].key, Some(ws[..j] + [w] + ws[j..]))]
  }

  /** An entry whose start does not parse, or lies outside the range,
      changes none of the four tables, wherever it appears. */
  lemma UncountedEntryChangesNothing(issues: seq<FetchedIssue>, i: int, j: int, w: Worklog, range: Range, parse: Parser)
    requires 0 <= i < |issues| && issues[i].worklogs.Some? && 0 <= j <= |issues[i].worklogs.value|
    requires !Counted(w, range, parse)
    ensures ProcessWorklogs(InsertEntry(issues, i, j, w), range, parse) == ProcessWorklogs(issues, range, parse)
  {
    var x := issues[i];
    var ws := x.worklogs.value;
    var x' := FetchedIssue(x.key, Some(ws[..j] + [w] + ws[j..]));
    UncountedEntryNoContribution(x.key, ws, j, w, range, parse);
    assert InsertEntry(issues, i, j, w) == issues[i := x'];
    ReplaceIssue(issues, i, x', range, parse);
  }

  lemma UncountedEntryNoContribution(key: IssueKey, ws: seq<Worklog>, j: int, w: Worklog, range: Range, parse: Parser)
    requires 0 <= j <= |ws|
    requires !Counted(w, range, parse)
    ensures CountedIn(key, ws[..j] + [w] + ws[j..], range, parse) == CountedIn(key, ws, range, parse)
  {
    var a, b := ws[..j], ws[j..];
    assert a + b == ws;
    CountedInAppend(key, a + [w], b, range, parse);
    CountedInAppend(key, a, [w], range, parse);
    CountedInAppend(key, a, b, range, parse);
    assert [w][..0] == [];
    assert CountedIn(key, [w], range, parse) == [];
    var ca, cb := CountedIn(key, a, range, parse), CountedIn(key, b, range, parse);
    assert CountedIn(key, a + [w], range, parse) == ca;
    assert CountedIn(key, a + [w] + b, range, parse) == ca + cb;
  }

  /** Replacing an issue by one with the same key and contributions does
      not change the run. */
  lemma ReplaceIssue(issues: seq<FetchedIssue>, i: int, y: FetchedIssue, range: Range, parse: Parser)
    requires 0 <= i < |issues|
    requires y.key == issues[i].key
    requires IssueContributions(y, range, parse) == IssueContributions(issues[i], range, parse)
    ensures ProcessWorklogs(issues[i := y], range, parse) == ProcessWorklogs(issues, range, parse)
  {
    var x, before, after := issues[i], issues[..i], issues[i + 1..];
    assert issues == before + [x] + after;
    assert issues[i := y] == before + [y] + after;
    ProcessAllAppend(EmptyTables, before + [x], after, range, parse);
    ProcessAllAppend(EmptyTables, before + [y], after, range, parse);
    ProcessAllAppend(EmptyTables, before, [x], range, parse);
    ProcessAllAppend(EmptyTables, before, [y], range, parse);
    SameContributionsSameEffect(ProcessAll(EmptyTables, before, range, parse), x, y, range, parse);
  }

  /** An issue whose worklog request failed changes none of the four
      tables, wherever it appears, and the issues after it are still
      processed. */
  lemma FailedFetchChangesNothing(issues: seq<FetchedIssue>, i: int, key: IssueKey, range: Range, parse: Parser)
    requires 0 <= i <= |issues|
    ensures ProcessWorklogs(issues[..i] + [FetchedIssue(key, None)] + issues[i..], range, parse) ==
            ProcessWorklogs(issues, range, parse)
  {
    var before, after, x := issues[..i], issues[i..], FetchedIssue(key, None);
    assert issues == before + after;
    ProcessAllAppend(EmptyTables, before + [x], after, range, parse);
    ProcessAllAppend(EmptyTables, before, [x], range, parse);
    ProcessAllAppend(EmptyTables, before, after, range, parse);
  }

  /** An entry stamped with a `Z` suffix is read as the same instant as
      its `+00:00` spelling, and an entry at exactly either bound is
      counted: the range is inclusive at both ends. */
  lemma ZuluEntryAtBoundIsCounted(w: Worklog, stamp: string, range: Range, parse: Parser)
    requires 'Z' !in stamp && w.started == stamp + "Z"
    requires parse(stamp + "+00:00") == Some(range.start) || parse(stamp + "+00:00") == Some(range.end)
    requires range.start <= range.end
    ensures StartedInstant(w, parse) == parse(stamp + "+00:00")
    ensures Counted(w, range, parse)
  {
    Text.ReplaceAllAppend(stamp, "Z", 'Z', "+00:00");
    assert Text.ReplaceAll("Z", 'Z', "+00:00") == "+00:00";
  }
}
