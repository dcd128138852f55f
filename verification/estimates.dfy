/** `calculate_user_estimates` and `get_estimate_hours`: every user is
    credited with the full original estimate of every issue they logged
    time against. */
module Estimates {
  import opened Options
  import opened Sums
  import opened Worklogs

  /** An issue of the search result: its key and `timeoriginalestimate`
      in seconds, `None` when the field is missing or null. */
  datatype Issue = Issue(key: IssueKey, originalEstimate: Option<int>)

  /** `get_estimate_hours`: a null or zero estimate is worth 0 hours,
      any other one its seconds divided by 3600. */
  function EstimateHours(timeSeconds: Option<int>): (h: real)
    ensures h > 0.0 <==> timeSeconds.Some? && timeSeconds.value > 0
    ensures h * 3600.0 == timeSeconds.GetOr(0) as real
  {
    match timeSeconds
    case None => 0.0
    case Some(s) => if s != 0 then Hours(s) else 0.0
  }

  /** `{issue["key"]: issue for issue in issues}`: a later issue with the
      same key replaces an earlier one. */
  function IssueLookup(issues: seq<Issue>): (r: map<IssueKey, Issue>)
    ensures forall k :: k in r <==> exists i :: 0 <= i < |issues| && issues[i].key == k
    ensures forall k :: k in r ==> exists i :: LastWithKey(issues, i, k) && issues[i] == r[k]
    decreases |issues|
  {
    if |issues| == 0 then map[]
    else
      var p, x := issues[..|issues| - 1], issues[|issues| - 1];
      var r := IssueLookup(p);
      assert forall i :: 0 <= i < |p| ==> p[i] == issues[i];
      assert LastWithKey(issues, |issues| - 1, x.key);
      assert forall i, k :: LastWithKey(p, i, k) && k != x.key ==> LastWithKey(issues, i, k);
      r[x.key := x]
  }

  /** Issue `i` is the last one in `issues` whose key is `k`. */
  predicate LastWithKey(issues: seq<Issue>, i: int, k: IssueKey) {
    0 <= i < |issues| && issues[i].key == k && forall j :: i < j < |issues| ==> issues[j].key != k
  }

  /** The estimate of an issue key as the lookup sees it. */
  function KeyEstimate(lookup: map<IssueKey, Issue>, k: IssueKey): real {
    if k in lookup then EstimateHours(lookup[k].originalEstimate) else 0.0
  }

  /** The tickets that add to a user's estimate, with what each adds:
      those present in the lookup with a strictly positive estimate. */
  function Qualifying(tickets: set<IssueKey>, lookup: map<IssueKey, Issue>): map<IssueKey, real> {
    map k | k in tickets && k in lookup && KeyEstimate(lookup, k) > 0.0 :: KeyEstimate(lookup, k)
  }

  /** Some ticket is in the lookup with a strictly positive estimate. */
  predicate HasQualifying(tickets: set<IssueKey>, lookup: map<IssueKey, Issue>) {
    exists k :: k in tickets && k in lookup && KeyEstimate(lookup, k) > 0.0
  }

  /** Taking one more ticket into account adds its estimate when it
      qualifies, and nothing otherwise. */
  lemma QualifyingAdd(done: set<IssueKey>, k: IssueKey, lookup: map<IssueKey, Issue>)
    requires k !in done
    ensures var e := KeyEstimate(lookup, k);
      && MapSum(Qualifying(done + {k}, lookup)) ==
         MapSum(Qualifying(done, lookup)) + (if k in lookup && e > 0.0 then e else 0.0)
      && (HasQualifying(done + {k}, lookup) <==> HasQualifying(done, lookup) || (k in lookup && e > 0.0))
  {
    var q, e := Qualifying(done, lookup), KeyEstimate(lookup, k);
    if k in lookup && e > 0.0 {
      assert Qualifying(done + {k}, lookup) == q[k := e];
      MapSumInsert(q, k, e);
    } else {
      assert Qualifying(done + {k}, lookup) == q;
    }
  }

  /** The sum of the estimates of one user's qualifying tickets, and
      whether there is any such ticket. */
  method SumUserEstimate(tickets: set<IssueKey>, lookup: map<IssueKey, Issue>) returns (total: real, any: bool)
    ensures any <==> HasQualifying(tickets, lookup)
    ensures total == MapSum(Qualifying(tickets, lookup))
  {
    total, any := 0.0, false;
    var todo, done := tickets, {};
    assert Qualifying(done, lookup) == map[];
    while todo != {}
      invariant todo + done == tickets && todo !! done
      invariant any <==> HasQualifying(done, lookup)
      invariant total == MapSum(Qualifying(done, lookup))
      decreases todo
    {
      var k :| k in todo;
      total, any := AddTicket(done, k, lookup, total, any);
      todo, done := todo - {k}, done + {k};
    }
  }

  /** One step of the loop over a user's tickets. */
  method AddTicket(done: set<IssueKey>, k: IssueKey, lookup: map<IssueKey, Issue>, total: real, any: bool)
    returns (total': real, any': bool)
    requires k !in done
    requires any <==> HasQualifying(done, lookup)
    requires total == MapSum(Qualifying(done, lookup))
    ensures any' <==> HasQualifying(done + {k}, lookup)
    ensures total' == MapSum(Qualifying(done + {k}, lookup))
  {
    QualifyingAdd(done, k, lookup);
    total', any' := total, any;
    if k in lookup {
      var e := EstimateHours(lookup[k].originalEstimate);
      if e > 0.0 {
        total', any' := total + e, true;
      }
    }
  }

  /** `calculate_user_estimates`. A user gets an entry exactly when some
      ticket in their row is in the lookup with a positive estimate, and
      the entry is the sum of those estimates, so it is positive. */
  method CalculateUserEstimates(cells: map<UserId, map<IssueKey, real>>, issues: seq<Issue>)
    returns (estimates: map<UserId, real>)
    ensures forall u :: u in estimates <==> u in cells && HasQualifying(cells[u].Keys, IssueLookup(issues))
    ensures forall u :: u in estimates ==> estimates[u] == MapSum(Qualifying(cells[u].Keys, IssueLookup(issues)))
    ensures forall u :: u in estimates ==> estimates[u] > 0.0
  {
    var lookup := IssueLookup(issues);
    estimates := map[];
    var users := cells.Keys;
    while users != {}
      invariant users <= cells.Keys
      invariant forall u :: u in estimates <==> u in cells && u !in users && HasQualifying(cells[u].Keys, lookup)
      invariant forall u :: u in estimates ==> estimates[u] == MapSum(Qualifying(cells[u].Keys, lookup))
      invariant forall u :: u in estimates ==> estimates[u] > 0.0
      decreases users
    {
      var u :| u in users;
      var total, any := SumUserEstimate(cells[u].Keys, lookup);
      if any {
        var k :| k in cells[u] && k in lookup && KeyEstimate(lookup, k) > 0.0;
        assert k in Qualifying(cells[u].Keys, lookup);
        MapSumPositive(Qualifying(cells[u].Keys, lookup));
        estimates := estimates[u := total];
      }
      users := users - {u};
    }
  }

  /** An issue shared by several users is not split between them: its
      full estimate is part of the sum of every user whose row holds it. */
  lemma SharedIssueCountsInFull(cells: map<UserId, map<IssueKey, real>>, lookup: map<IssueKey, Issue>, k: IssueKey)
    requires k in lookup && KeyEstimate(lookup, k) > 0.0
    ensures forall u :: u in cells && k in cells[u] ==>
      MapSum(Qualifying(cells[u].Keys, lookup)) ==
      KeyEstimate(lookup, k) + MapSum(Qualifying(cells[u].Keys - {k}, lookup))
  {
    forall u | u in cells && k in cells[u]
      ensures MapSum(Qualifying(cells[u].Keys, lookup)) ==
              KeyEstimate(lookup, k) + MapSum(Qualifying(cells[u].Keys - {k}, lookup))
    {
      QualifyingRemove(cells[u].Keys, k, lookup);
    }
  }

  lemma QualifyingRemove(tickets: set<IssueKey>, k: IssueKey, lookup: map<IssueKey, Issue>)
    requires k in tickets && k in lookup && KeyEstimate(lookup, k) > 0.0
    ensures MapSum(Qualifying(tickets, lookup)) == KeyEstimate(lookup, k) + MapSum(Qualifying(tickets - {k}, lookup))
  {
    var q := Qualifying(tickets, lookup);
    MapSumRemove(q, k);
    assert q - {k} == Qualifying(tickets - {k}, lookup);
  }
}
