/** `build_jql_query`: the search query for the issues with worklogs in
    the reporting period, optionally restricted to some projects. */
module Jql {
  import Text
  import opened DateRange

  /** `strftime("%Y-%m-%d")`, which is not modelled. */
  type DayFormatter = DateTime -> string

  /** The worklog date condition `worklogDate >= 'S' AND worklogDate <= 'E'`:
      the fixed text around the days, and both days read back from it. */
  function DateClause(startDay: string, endDay: string): (r: string)
    ensures |r| == |startDay| + |endDay| + 39
    ensures r[..16] == "worklogDate >= '"
    ensures r[16 + |startDay|..|r| - 1 - |endDay|] == "' AND worklogDate <= '"
    ensures r[|r| - 1] == '\''
    ensures r[16..16 + |startDay|] == startDay
    ensures r[|r| - 1 - |endDay|..|r| - 1] == endDay
  {
    var head := "worklogDate >= '" + startDay;
    var tail := "' AND worklogDate <= '" + endDay;
    assert head[16..] == startDay;
    assert (tail + "'")[..|tail|] == tail;
    head + tail + "'"
  }

  /** The project part: none, `project = K`, or `project in (A,B,...)`.
      There is one part exactly when some key is given, and the keys can
      be read back from it: the single key after the 10-character
      `project = `, the comma-joined list between `project in (` and the
      closing parenthesis. */
  function ProjectFilter(projectKeys: seq<string>): (r: seq<string>)
    ensures |r| == (if |projectKeys| == 0 then 0 else 1)
    ensures |projectKeys| == 1 ==> |r[0]| >= 10 && r[0][..10] == "project = " && r[0][10..] == projectKeys[0]
    ensures |projectKeys| >= 2 ==>
      && |r[0]| >= 13 && r[0][..12] == "project in (" && r[0][|r[0]| - 1] == ')'
      && r[0][12..|r[0]| - 1] == Text.Join(",", projectKeys)
  {
    if |projectKeys| == 0 then []
    else if |projectKeys| == 1 then ["project = " + projectKeys[0]]
    else ["project in (" + Text.Join(",", projectKeys) + ")"]
  }

  /** The parts joined with ` AND `, the parenthesised date clause last. */
  function BuildJqlQuery(projectKeys: seq<string>, startDate: DateTime, endDate: DateTime, strftime: DayFormatter)
    : (jql: string)
    ensures var dates := "(" + DateClause(strftime(startDate), strftime(endDate)) + ")";
      && (|projectKeys| == 0 ==> jql == dates)
      && (|projectKeys| == 1 ==> jql == "project = " + projectKeys[0] + " AND " + dates)
      && (|projectKeys| >= 2 ==> jql == "project in (" + Text.Join(",", projectKeys) + ")" + " AND " + dates)
  {
    var dates := "(" + DateClause(strftime(startDate), strftime(endDate)) + ")";
    var filter := ProjectFilter(projectKeys);
    var parts := filter + [dates];
    if |filter| == 0 then
      assert parts == [dates];
      Text.Join(" AND ", parts)
    else
      Text.JoinCons(" AND ", filter[0], [dates]);
      assert parts == [filter[0]] + [dates];
      Text.Join(" AND ", parts)
  }

  /** With several comma-free project keys, splitting the list inside
      `project in (...)` at commas gives the keys back, in order. */
  lemma ProjectListRoundTrip(projectKeys: seq<string>)
    requires |projectKeys| >= 2
    requires forall i :: 0 <= i < |projectKeys| ==> ',' !in projectKeys[i]
    ensures Text.Split(Text.Join(",", projectKeys), ',') == projectKeys
  {
    Text.SplitJoin(projectKeys, ',');
  }
}
