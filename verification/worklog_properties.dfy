/** What the worklog fold computes, stated against reference
    definitions over the run's contributions (its counted entries in
    processing order), and the properties the report relies on. */
module WorklogProperties {
  import opened Sums
  import opened Worklogs

  /** The authors of some contributions. */
  function Authors(cs: seq<Contribution>): set<UserId>
    decreases |cs|
  {
    if |cs| == 0 then {} else Authors(cs[..|cs| - 1]) + {cs[|cs| - 1].author}
  }

  /** The (author, issue) pairs of some contributions. */
  function Pairs(cs: seq<Contribution>): set<(UserId, IssueKey)>
    decreases |cs|
  {
    if |cs| == 0 then {} else Pairs(cs[..|cs| - 1]) + {(cs[|cs| - 1].author, cs[|cs| - 1].key)}
  }

  /** The hours contributed by user `u`. */
  function HoursBy(cs: seq<Contribution>, u: UserId): real
    decreases |cs|
  {
    if |cs| == 0 then 0.0
    else HoursBy(cs[..|cs| - 1], u) + (if cs[|cs| - 1].author == u then cs[|cs| - 1].hours else 0.0)
  }

  /** The hours contributed by user `u` to issue `k`. */
  function CellHours(cs: seq<Contribution>, u: UserId, k: IssueKey): real
    decreases |cs|
  {
    if |cs| == 0 then 0.0
    else
      var c := cs[|cs| - 1];
      CellHours(cs[..|cs| - 1], u, k) + (if c.author == u && c.key == k then c.hours else 0.0)
  }

  /** The hours contributed to issue `k`, by anyone. */
  function KeyHours(cs: seq<Contribution>, k: IssueKey): real
    decreases |cs|
  {
    if |cs| == 0 then 0.0
    else KeyHours(cs[..|cs| - 1], k) + (if cs[|cs| - 1].key == k then cs[|cs| - 1].hours else 0.0)
  }

  /** The display name carried by the last contribution of `u`. */
  function LastName(cs: seq<Contribution>, u: UserId): (name: string)
    requires u in Authors(cs)
    ensures exists j :: 0 <= j < |cs| && cs[j].author == u && cs[j].name == name &&
                        (forall j' :: j < j' < |cs| ==> cs[j'].author != u)
    decreases |cs|
  {
    var p, c := cs[..|cs| - 1], cs[|cs| - 1];
    if c.author == u then c.name
    else
      var name := LastName(p, u);
      assert forall j :: 0 <= j < |p| ==> p[j] == cs[j];
      name
  }

  /** The hours of every user on issue `k`: one column of the nested table. */
  function Column(cells: map<UserId, map<IssueKey, real>>, k: IssueKey): map<UserId, real> {
    map u | u in cells && k in cells[u] :: cells[u][k]
  }

  /** The user tables hold exactly the totals, names and cells of `cs`,
      and each user's total and each issue's column add up. */
  ghost predicate Summarises(ut: UserTables, cs: seq<Contribution>) {
    && KeysMatch(ut, cs)
    && HoursMatch(ut, cs)
    && NamesMatch(ut, cs)
    && CellsMatch(ut, cs)
    && UserConservation(ut)
    && ColumnConservation(ut, cs)
  }

  ghost predicate KeysMatch(ut: UserTables, cs: seq<Contribution>) {
    && ut.hours.Keys == Authors(cs)
    && ut.names.Keys == Authors(cs)
    && ut.cells.Keys == Authors(cs)
  }

  ghost predicate HoursMatch(ut: UserTables, cs: seq<Contribution>) {
    forall u :: u in ut.hours ==> ut.hours[u] == HoursBy(cs, u)
  }

  ghost predicate NamesMatch(ut: UserTables, cs: seq<Contribution>) {
    forall u :: u in Authors(cs) ==> u in ut.names && ut.names[u] == LastName(cs, u)
  }

  ghost predicate CellsMatch(ut: UserTables, cs: seq<Contribution>) {
    && (forall u, k :: u in ut.cells ==> (k in ut.cells[u] <==> (u, k) in Pairs(cs)))
    && (forall u, k :: u in ut.cells && k in ut.cells[u] ==> ut.cells[u][k] == CellHours(cs, u, k))
  }

  ghost predicate UserConservation(ut: UserTables) {
    forall u :: u in ut.hours ==> u in ut.cells && ut.hours[u] == MapSum(ut.cells[u])
  }

  ghost predicate ColumnConservation(ut: UserTables, cs: seq<Contribution>) {
    forall k :: MapSum(Column(ut.cells, k)) == KeyHours(cs, k)
  }

  lemma Snoc<T>(p: seq<T>, c: T)
    ensures (p + [c])[..|p|] == p && (p + [c])[|p|] == c
  {
  }

  lemma {:induction false} AbsentAuthor(cs: seq<Contribution>, u: UserId, k: IssueKey)
    requires u !in Authors(cs)
    ensures HoursBy(cs, u) == 0.0 && CellHours(cs, u, k) == 0.0
    ensures forall k' :: (u, k') !in Pairs(cs)
    decreases |cs|
  {
    if |cs| > 0 {
      AbsentAuthor(cs[..|cs| - 1], u, k);
    }
  }

  lemma {:induction false} AbsentPair(cs: seq<Contribution>, u: UserId, k: IssueKey)
    requires (u, k) !in Pairs(cs)
    ensures CellHours(cs, u, k) == 0.0
    decreases |cs|
  {
    if |cs| > 0 {
      AbsentPair(cs[..|cs| - 1], u, k);
    }
  }

  lemma ApplyKeys(ut: UserTables, p: seq<Contribution>, c: Contribution)
    requires KeysMatch(ut, p)
    ensures KeysMatch(ApplyContribution(ut, c), p + [c])
  {
    Snoc(p, c);
  }

  lemma ApplyHours(ut: UserTables, p: seq<Contribution>, c: Contribution)
    requires KeysMatch(ut, p) && HoursMatch(ut, p)
    ensures HoursMatch(ApplyContribution(ut, c), p + [c])
  {
    Snoc(p, c);
    if c.author !in Authors(p) {
      AbsentAuthor(p, c.author, c.key);
    }
  }

  lemma ApplyNames(ut: UserTables, p: seq<Contribution>, c: Contribution)
    requires KeysMatch(ut, p) && NamesMatch(ut, p)
    ensures NamesMatch(ApplyContribution(ut, c), p + [c])
  {
    Snoc(p, c);
  }

  lemma ApplyCells(ut: UserTables, p: seq<Contribution>, c: Contribution)
    requires KeysMatch(ut, p) && CellsMatch(ut, p)
    ensures CellsMatch(ApplyContribution(ut, c), p + [c])
  {
    var cs := p + [c];
    Snoc(p, c);
    var ut' := ApplyContribution(ut, c);
    var a := c.author;
    var row := Get0Row(ut.cells, a);
    if a !in Authors(p) {
      AbsentAuthor(p, a, c.key);
    }
    if (a, c.key) !in Pairs(p) {
      AbsentPair(p, a, c.key);
    }
    assert Get0(row, c.key) == CellHours(p, a, c.key);
    forall u, k | u in ut'.cells
      ensures k in ut'.cells[u] <==> (u, k) in Pairs(cs)
    {
    }
    forall u, k | u in ut'.cells && k in ut'.cells[u]
      ensures ut'.cells[u][k] == CellHours(cs, u, k)
    {
      if u == a && k != c.key {
        assert k in row;
      }
    }
  }

  lemma ApplyUserConservation(ut: UserTables, p: seq<Contribution>, c: Contribution)
    requires KeysMatch(ut, p) && UserConservation(ut)
    ensures UserConservation(ApplyContribution(ut, c))
  {
    var ut' := ApplyContribution(ut, c);
    var a := c.author;
    var row := Get0Row(ut.cells, a);
    MapSumUpdate(row, c.key, Get0(row, c.key) + c.hours);
    assert Get0(ut.hours, a) == MapSum(row);
  }

  lemma ApplyColumnConservation(ut: UserTables, p: seq<Contribution>, c: Contribution)
    requires ColumnConservation(ut, p)
    ensures ColumnConservation(ApplyContribution(ut, c), p + [c])
  {
    forall k
      ensures MapSum(Column(ApplyContribution(ut, c).cells, k)) == KeyHours(p + [c], k)
    {
      ColumnStep(ut, p, c, k);
    }
  }

  lemma ColumnStep(ut: UserTables, p: seq<Contribution>, c: Contribution, k: IssueKey)
    requires MapSum(Column(ut.cells, k)) == KeyHours(p, k)
    ensures MapSum(Column(ApplyContribution(ut, c).cells, k)) == KeyHours(p + [c], k)
  {
    Snoc(p, c);
    if k == c.key {
      ColumnStepSameKey(ut, c);
    } else {
      ColumnOfOtherKey(ut, c, k);
    }
  }

  /** Applying a contribution leaves the columns of other issues alone. */
  lemma ColumnOfOtherKey(ut: UserTables, c: Contribution, k: IssueKey)
    requires k != c.key
    ensures Column(ApplyContribution(ut, c).cells, k) == Column(ut.cells, k)
  {
  }

  lemma ColumnStepSameKey(ut: UserTables, c: Contribution)
    ensures MapSum(Column(ApplyContribution(ut, c).cells, c.key)) == MapSum(Column(ut.cells, c.key)) + c.hours
  {
    var col := Column(ut.cells, c.key);
    var v := Get0(Get0Row(ut.cells, c.author), c.key) + c.hours;
    ColumnOfUpdatedCell(ut, c);
    MapSumUpdate(col, c.author, v);
  }

  /** Applying a contribution updates one entry of its issue's column. */
  lemma ColumnOfUpdatedCell(ut: UserTables, c: Contribution)
    ensures var row := Get0Row(ut.cells, c.author);
      && Get0(Column(ut.cells, c.key), c.author) == Get0(row, c.key)
      && Column(ApplyContribution(ut, c).cells, c.key) ==
         Column(ut.cells, c.key)[c.author := Get0(row, c.key) + c.hours]
  {
  }

  /** Folding contributions into empty tables summarises them. */
  lemma {:induction false} FoldSummarises(cs: seq<Contribution>)
    ensures Summarises(FoldContribs(EmptyUsers, cs), cs)
    decreases |cs|
  {
    if |cs| == 0 {
      forall k ensures MapSum(Column(EmptyUsers.cells, k)) == KeyHours(cs, k) {
        assert Column(EmptyUsers.cells, k) == map[];
      }
    } else {
      var p, c := cs[..|cs| - 1], cs[|cs| - 1];
      assert cs == p + [c];
      var ut := FoldContribs(EmptyUsers, p);
      assert FoldContribs(EmptyUsers, cs) == ApplyContribution(ut, c);
      FoldSummarises(p);
      ApplyKeys(ut, p, c);
      ApplyHours(ut, p, c);
      ApplyNames(ut, p, c);
      ApplyCells(ut, p, c);
      ApplyUserConservation(ut, p, c);
      ApplyColumnConservation(ut, p, c);
    }
  }
}
