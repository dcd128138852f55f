/** The worklog fold of `process_worklogs`: every issue of the search
    result, paired with the outcome of its worklog fetch, is folded in
    order into the four hour tables. */
module Worklogs {
  import opened Options
  import opened Sums
  import Text

  type UserId = string
  type IssueKey = string

  /** A point in time, normalised to UTC, in the unit the parser yields. */
  type Instant = int

  /** `datetime.fromisoformat`, which is not modelled: `None` stands for
      the `ValueError` it raises on a malformed timestamp. */
  type Parser = string -> Option<Instant>

  const SecondsPerHour: int := 3600

  /** One worklog record: author account id and display name, the raw
      `started` timestamp and `timeSpentSeconds`. */
  datatype Worklog = Worklog(
    authorId: UserId,
    displayName: string,
    started: string,
    timeSpentSeconds: int)

  /** An issue of the search result with the outcome of its worklog
      request: `None` when the request did not answer 200. */
  datatype FetchedIssue = FetchedIssue(key: IssueKey, worklogs: Option<seq<Worklog>>)

  /** The inclusive reporting interval `[start, end]`. */
  datatype Range = Range(start: Instant, end: Instant)

  /** The three per-user tables: `user_hours`, `user_names` and the
      nested `user_issue_hours` (here `cells`). */
  datatype UserTables = UserTables(
    hours: map<UserId, real>,
    names: map<UserId, string>,
    cells: map<UserId, map<IssueKey, real>>)

  /** All four tables; `issueHours` is `issue_hours`. */
  datatype Tables = Tables(users: UserTables, issueHours: map<IssueKey, real>)

  /** What one counted entry adds: its issue, author, name and hours. */
  datatype Contribution = Contribution(key: IssueKey, author: UserId, name: string, hours: real)

  /** The state of the inner loop: the tables and `issue_total_hours`. */
  datatype Acc = Acc(users: UserTables, issueTotal: real)

  const EmptyUsers: UserTables := UserTables(map[], map[], map[])
  const EmptyTables: Tables := Tables(EmptyUsers, map[])

  /** `seconds / 3600`, exactly. */
  function Hours(seconds: int): (h: real)
    ensures h * 3600.0 == seconds as real
    ensures h > 0.0 <==> seconds > 0
    ensures h == 0.0 <==> seconds == 0
  {
    seconds as real / SecondsPerHour as real
  }

  /** The start instant of an entry: the trailing `Z` is rewritten as
      `+00:00` before parsing, so the parser never sees a `Z`, and a
      timestamp without one is parsed as written. */
  function StartedInstant(w: Worklog, parse: Parser): (r: Option<Instant>)
    ensures 'Z' !in w.started ==> r == parse(w.started)
  {
    var s := Text.ReplaceAll(w.started, 'Z', "+00:00");
    parse(s)
  }

  /** An entry counts when its start parses and lies in `[start, end]`:
      never when it does not parse or the range is empty, always when it
      parses to either bound of a non-empty range. */
  predicate Counted(w: Worklog, range: Range, parse: Parser)
    ensures StartedInstant(w, parse).None? ==> !Counted(w, range, parse)
    ensures Counted(w, range, parse) ==> range.start <= range.end
    ensures range.start <= range.end &&
            (StartedInstant(w, parse) == Some(range.start) || StartedInstant(w, parse) == Some(range.end)) ==>
            Counted(w, range, parse)
  {
    match StartedInstant(w, parse)
    case None => false
    case Some(t) => range.start <= t <= range.end
  }

  function ContributionOf(key: IssueKey, w: Worklog): Contribution {
    Contribution(key, w.authorId, w.displayName, Hours(w.timeSpentSeconds))
  }

  /** The three updates of a counted entry: `user_hours[u] += h`,
      `user_names[u] = name`, `user_issue_hours[u][key] += h`. */
  function ApplyContribution(ut: UserTables, c: Contribution): UserTables
  {
    var row := if c.author in ut.cells then ut.cells[c.author] else map[];
    UserTables(
      ut.hours[c.author := Get0(ut.hours, c.author) + c.hours],
      ut.names[c.author := c.name],
      ut.cells[c.author := row[c.key := Get0(row, c.key) + c.hours]])
  }

  /** The effect of one contribution: its author's total grows by its
      hours, the author's name becomes its name, its (author, issue) cell
      grows by its hours (starting from 0), each table gains at most the
      author as a key, and every other user and cell is left alone. */
  lemma ContributionEffect(ut: UserTables, c: Contribution)
    ensures var r, u, row := ApplyContribution(ut, c), c.author, Get0Row(ut.cells, c.author);
      && r.hours.Keys == ut.hours.Keys + {u}
      && r.names.Keys == ut.names.Keys + {u}
      && r.cells.Keys == ut.cells.Keys + {u}
      && r.hours[u] == Get0(ut.hours, u) + c.hours
      && r.names[u] == c.name
      && r.cells[u].Keys == row.Keys + {c.key}
      && r.cells[u][c.key] == Get0(row, c.key) + c.hours
      && (forall k :: k in row && k != c.key ==> r.cells[u][k] == row[k])
      && (forall v :: v in ut.hours && v != u ==> r.hours[v] == ut.hours[v])
      && (forall v :: v in ut.names && v != u ==> r.names[v] == ut.names[v])
      && (forall v :: v in ut.cells && v != u ==> r.cells[v] == ut.cells[v])
  {
  }

  /** The contributions folded into the user tables in order. */
  function FoldContribs(ut: UserTables, cs: seq<Contribution>): UserTables
    decreases |cs|
  {
    if |cs| == 0 then ut
    else ApplyContribution(FoldContribs(ut, cs[..|cs| - 1]), cs[|cs| - 1])
  }

  /** The sum of the hours of some contributions. */
  function TotalHours(cs: seq<Contribution>): real
    decreases |cs|
  {
    if |cs| == 0 then 0.0 else TotalHours(cs[..|cs| - 1]) + cs[|cs| - 1].hours
  }

  /** The contributions of the counted entries of one issue, in order. */
  function CountedIn(key: IssueKey, ws: seq<Worklog>, range: Range, parse: Parser): (r: seq<Contribution>)
    ensures forall i :: 0 <= i < |r| ==> r[i].key == key
    decreases |ws|
  {
    if |ws| == 0 then []
    else
      var w := ws[|ws| - 1];
      CountedIn(key, ws[..|ws| - 1], range, parse) + (if Counted(w, range, parse) then [ContributionOf(key, w)] else [])
  }

  /** The contributions of an issue are exactly those of its counted entries. */
  lemma {:induction false} CountedInMembers(key: IssueKey, ws: seq<Worklog>, range: Range, parse: Parser)
    ensures forall c :: c in CountedIn(key, ws, range, parse) <==>
      exists j :: 0 <= j < |ws| && Counted(ws[j], range, parse) && c == ContributionOf(key, ws[j])
    decreases |ws|
  {
    if |ws| > 0 {
      var prefix := ws[..|ws| - 1];
      CountedInMembers(key, prefix, range, parse);
      assert forall j :: 0 <= j < |prefix| ==> prefix[j] == ws[j];
    }
  }

  /** The contributions of a whole run: those of every issue whose
      worklogs were fetched, issue after issue. */
  function Contributions(issues: seq<FetchedIssue>, range: Range, parse: Parser): seq<Contribution>
    decreases |issues|
  {
    if |issues| == 0 then []
    else Contributions(issues[..|issues| - 1], range, parse) + IssueContributions(issues[|issues| - 1], range, parse)
  }

  function IssueContributions(fi: FetchedIssue, range: Range, parse: Parser): seq<Contribution> {
    match fi.worklogs
    case None => []
    case Some(ws) => CountedIn(fi.key, ws, range, parse)
  }

  lemma {:induction false} FoldContribsAppend(ut: UserTables, a: seq<Contribution>, b: seq<Contribution>)
    ensures FoldContribs(ut, a + b) == FoldContribs(FoldContribs(ut, a), b)
    decreases |b|
  {
    if |b| == 0 {
      assert a + b == a;
    } else {
      var p := b[..|b| - 1];
      assert (a + b)[..|a + b| - 1] == a + p;
      assert (a + b)[|a + b| - 1] == b[|b| - 1];
      FoldContribsAppend(ut, a, p);
    }
  }

  /** One pass of the inner loop: a counted entry is applied and its
      hours are added to the issue's running total. */
  function ApplyEntry(acc: Acc, key: IssueKey, w: Worklog, range: Range, parse: Parser): (r: Acc)
    ensures !Counted(w, range, parse) ==> r == acc
    ensures Counted(w, range, parse) ==>
      r.issueTotal == acc.issueTotal + Hours(w.timeSpentSeconds) && w.authorId in r.users.hours
  {
    if Counted(w, range, parse) then
      var c := ContributionOf(key, w);
      Acc(ApplyContribution(acc.users, c), acc.issueTotal + c.hours)
    else acc
  }

  /** The row of user `u` in the nested table, empty when absent. */
  function Get0Row(cells: map<UserId, map<IssueKey, real>>, u: UserId): map<IssueKey, real> {
    if u in cells then cells[u] else map[]
  }

  /** The effect of one entry. An entry whose start does not parse, or
      parses to an instant outside `[start, end]`, changes nothing; a
      counted entry adds its hours to its author's total, to the (author,
      issue) cell and to the issue's running total, records the author's
      name, and leaves every other user and cell alone. */
  lemma EntryEffect(acc: Acc, key: IssueKey, w: Worklog, range: Range, parse: Parser)
    ensures StartedInstant(w, parse).None? ==> ApplyEntry(acc, key, w, range, parse) == acc
    ensures (StartedInstant(w, parse).Some? &&
             !(range.start <= StartedInstant(w, parse).value <= range.end)) ==>
            ApplyEntry(acc, key, w, range, parse) == acc
    ensures StartedInstant(w, parse).Some? && range.start <= StartedInstant(w, parse).value <= range.end ==>
      var r, u, h := ApplyEntry(acc, key, w, range, parse), w.authorId, Hours(w.timeSpentSeconds);
      && r.issueTotal == acc.issueTotal + h
      && r.users.hours.Keys == acc.users.hours.Keys + {u}
      && r.users.hours[u] == Get0(acc.users.hours, u) + h
      && r.users.names.Keys == acc.users.names.Keys + {u}
      && r.users.names[u] == w.displayName
      && r.users.cells.Keys == acc.users.cells.Keys + {u}
      && r.users.cells[u].Keys == Get0Row(acc.users.cells, u).Keys + {key}
      && r.users.cells[u][key] == Get0(Get0Row(acc.users.cells, u), key) + h
      && (forall k :: k in Get0Row(acc.users.cells, u) && k != key ==>
            r.users.cells[u][k] == acc.users.cells[u][k])
      && (forall v :: v in acc.users.hours && v != u ==> r.users.hours[v] == acc.users.hours[v])
      && (forall v :: v in acc.users.names && v != u ==> r.users.names[v] == acc.users.names[v])
      && (forall v :: v in acc.users.cells && v != u ==> r.users.cells[v] == acc.users.cells[v])
  {
  }

  /** The inner loop over the entries of one issue. Its effect is that of
      first keeping the counted entries and then applying them in order;
      the running total grows by their hours. */
  function ProcessEntries(acc: Acc, key: IssueKey, ws: seq<Worklog>, range: Range, parse: Parser): (r: Acc)
    ensures r.users == FoldContribs(acc.users, CountedIn(key, ws, range, parse))
    ensures r.issueTotal == acc.issueTotal + TotalHours(CountedIn(key, ws, range, parse))
    decreases |ws|
  {
    if |ws| == 0 then acc
    else
      var prefix, w := ws[..|ws| - 1], ws[|ws| - 1];
      var prev := ProcessEntries(acc, key, prefix, range, parse);
      var cs := CountedIn(key, prefix, range, parse);
      assert CountedIn(key, ws, range, parse) ==
             cs + (if Counted(w, range, parse) then [ContributionOf(key, w)] else []);
      if Counted(w, range, parse) then
        var c := ContributionOf(key, w);
        assert (cs + [c])[..|cs|] == cs;
        ApplyEntry(prev, key, w, range, parse)
      else
        assert cs + [] == cs;
        ApplyEntry(prev, key, w, range, parse)
  }

  /** One pass of the outer loop. A failed fetch leaves the tables as they
      are; otherwise the counted entries update the user tables, and the
      issue's total is stored only when it is strictly positive. */
  function ProcessIssue(t: Tables, fi: FetchedIssue, range: Range, parse: Parser): (r: Tables)
    ensures fi.worklogs.None? ==> r == t
    ensures r.users == FoldContribs(t.users, IssueContributions(fi, range, parse))
    ensures var total := TotalHours(IssueContributions(fi, range, parse));
      && (fi.key in r.issueHours <==> fi.key in t.issueHours || total > 0.0)
      && (total > 0.0 ==> r.issueHours[fi.key] == total)
      && (total <= 0.0 ==> r.issueHours == t.issueHours)
      && (forall k :: k != fi.key ==> (k in r.issueHours <==> k in t.issueHours))
      && (forall k :: k != fi.key && k in t.issueHours ==> r.issueHours[k] == t.issueHours[k])
  {
    match fi.worklogs
    case None => t
    case Some(ws) =>
      var a := ProcessEntries(Acc(t.users, 0.0), fi.key, ws, range, parse);
      Tables(a.users, if a.issueTotal > 0.0 then t.issueHours[fi.key := a.issueTotal] else t.issueHours)
  }

  /** The outer loop over the issues, from the given tables. The user
      tables it yields are the fold of the run's contributions. */
  function ProcessAll(t: Tables, issues: seq<FetchedIssue>, range: Range, parse: Parser): (r: Tables)
    ensures r.users == FoldContribs(t.users, Contributions(issues, range, parse))
    ensures forall k :: k in r.issueHours ==>
      r.issueHours[k] > 0.0 || (k in t.issueHours && r.issueHours[k] == t.issueHours[k])
    decreases |issues|
  {
    if |issues| == 0 then t
    else
      var prefix := issues[..|issues| - 1];
      var last := issues[|issues| - 1];
      FoldContribsAppend(t.users, Contributions(prefix, range, parse), IssueContributions(last, range, parse));
      ProcessIssue(ProcessAll(t, prefix, range, parse), last, range, parse)
  }

  /** `process_worklogs` without its HTTP requests: the user tables are
      the fold of the run's contributions, and every stored issue total
      is strictly positive. */
  function ProcessWorklogs(issues: seq<FetchedIssue>, range: Range, parse: Parser): (r: Tables)
    ensures r.users == FoldContribs(EmptyUsers, Contributions(issues, range, parse))
    ensures forall k :: k in r.issueHours ==> r.issueHours[k] > 0.0
  {
    ProcessAll(EmptyTables, issues, range, parse)
  }

  /** The outer loop of `process_worklogs`, written as a loop. */
  method ProcessWorklogsLoop(issues: seq<FetchedIssue>, range: Range, parse: Parser) returns (t: Tables)
    ensures t == ProcessWorklogs(issues, range, parse)
  {
    t := EmptyTables;
    var i := 0;
    while i < |issues|
      invariant 0 <= i <= |issues|
      invariant t == ProcessAll(EmptyTables, issues[..i], range, parse)
    {
      assert issues[..i + 1][..i] == issues[..i];
      t := ProcessIssueLoop(t, issues[i], range, parse);
      i := i + 1;
    }
    assert issues[..i] == issues;
  }

  /** The body of the outer loop: the inner loop over one issue's entries
      and the guarded store of its total. */
  method ProcessIssueLoop(t: Tables, fi: FetchedIssue, range: Range, parse: Parser) returns (r: Tables)
    ensures r == ProcessIssue(t, fi, range, parse)
  {
    if fi.worklogs.None? {
      return t;
    }
    var ws := fi.worklogs.value;
    var acc := Acc(t.users, 0.0);
    var j := 0;
    while j < |ws|
      invariant 0 <= j <= |ws|
      invariant acc == ProcessEntries(Acc(t.users, 0.0), fi.key, ws[..j], range, parse)
    {
      assert ws[..j + 1][..j] == ws[..j];
      acc := ApplyEntry(acc, fi.key, ws[j], range, parse);
      j := j + 1;
    }
    assert ws[..j] == ws;
    if acc.issueTotal > 0.0 {
      r := Tables(acc.users, t.issueHours[fi.key := acc.issueTotal]);
    } else {
      r := Tables(acc.users, t.issueHours);
    }
  }
}
