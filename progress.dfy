/** The progress indicators: the completion ratio of every care line, the
    completion metric of the first care line selected in the filter, and the
    rows that enter the status distribution. Only the counts are modelled;
    the percentage is exact, without the rounding to one decimal. */
module Progress {
  import opened Wrappers
  import opened Seqs
  import opened Sheet
  import opened Text

  /** The lower-cased statuses that count as complete. */
  const DoneLower: string := "conclu\U{ED}do"
  const OngoingLower: string := "a\U{E7}\U{E3}o cont\U{ED}nua"

  /** `status.lower() in ["concluído", "ação contínua"]`. */
  predicate Completed(status: string)
  {
    Lower(status) == DoneLower || Lower(status) == OngoingLower
  }

  /** Of the four statuses the edit form offers (line 39), done and ongoing
      count as complete, pending and in progress do not. */
  lemma StatusOptionsCompleted()
    ensures Completed(Done) && Completed(Ongoing)
    ensures !Completed(Pending) && !Completed(InProgress)
    ensures forall s :: s in StatusOptions ==> (Completed(s) <==> s == Done || s == Ongoing)
  {
    assert Lower(Done) == DoneLower;
    assert Lower(Ongoing) == OngoingLower;
    assert Lower(Pending)[0] == 'p';
    assert Lower(InProgress)[0] == 'e';
  }

  /** Completed rows and their total. */
  datatype Ratio = Ratio(done: nat, total: nat)

  /** The percentage shown: `concluidos / total * 100`, and 0 for a line without rows. */
  function Percent(p: Ratio): (pct: real)
    ensures p.total == 0 ==> pct == 0.0
    ensures 0.0 <= pct
    ensures p.done <= p.total ==> pct <= 100.0
    ensures p.total > 0 ==> pct * p.total as real == 100.0 * p.done as real
  {
    if p.total > 0 then
      var pct := 100.0 * p.done as real / p.total as real;
      assert p.done <= p.total ==> pct <= 100.0 by {
        if p.done <= p.total {
          assert 100.0 * p.done as real <= 100.0 * p.total as real;
        }
      }
      pct
    else 0.0
  }

  /** Line 118: a row whose flag in the column "Concluído" of `df_total` is 1. */
  predicate RowComplete(r: Row)
  {
    Completed(r.status)
  }

  /** The sum of the 0/1 flags `complete` gives the rows of one care line. */
  function FlagSum(t: seq<Row>, line: string, complete: Row -> bool): (n: nat)
    ensures n <= GroupSize(t, line)
  {
    if t == [] then 0
    else
      var n := |t| - 1;
      FlagSum(t[..n], line, complete) + (if t[n].line == line && complete(t[n]) then 1 else 0)
  }

  /** The number of rows in the group of one care line. */
  function GroupSize(t: seq<Row>, line: string): (n: nat)
    ensures n <= |t|
    ensures n > 0 <==> HasLine(t, line)
  {
    if t == [] then 0
    else
      var n := GroupSize(t[..|t| - 1], line) + (if t[|t| - 1].line == line then 1 else 0);
      assert HasLine(t[..|t| - 1], line) ==> HasLine(t, line) by {
        if HasLine(t[..|t| - 1], line) {
          var k :| 0 <= k < |t| - 1 && t[..|t| - 1][k].line == line;
          assert t[k].line == line;
        }
      }
      n
  }

  /** Lines 118-120, `groupby("Linha de Cuidado")["Concluído"].mean()`: for
      every care line of the unfiltered sheet, its completed rows over its rows.
      Every group is non-empty. */
  function OverallProgress(t: seq<Row>): (m: map<string, Ratio>)
    ensures forall line :: line in m <==> HasLine(t, line)
    ensures forall line :: line in m ==> 0 < m[line].total && m[line].done <= m[line].total
  {
    map line | line in (set k | 0 <= k < |t| :: t[k].line) :: Ratio(FlagSum(t, line, RowComplete), GroupSize(t, line))
  }

  /** The mask `df["Linha de Cuidado"] == line`. */
  function LineMask(line: string): Row -> bool
  {
    (r: Row) => r.line == line
  }

  /** `df[df["Linha de Cuidado"] == line]`, the rows of one care line. */
  function LineRows(t: seq<Row>, line: string): (s: seq<Row>)
    ensures forall r :: r in s <==> r in t && r.line == line
  {
    Where(t, LineMask(line))
  }

  /** Lines 128-130: `concluidos` (the complete rows of the line) against
      `total` (all rows of the line). */
  function LineProgress(t: seq<Row>, line: string): (p: Ratio)
    ensures p.done <= p.total <= |t|
  {
    var rows := LineRows(t, line);
    Ratio(|Where(rows, RowComplete)|, |rows|)
  }

  /** Lines 125-132: the metric of the first care line selected in the filter,
      and no metric when no line is selected. */
  function SelectedLineMetric(t: seq<Row>, lines: seq<string>): (m: Option<real>)
    ensures m.Some? <==> lines != []
    ensures m.Some? ==> 0.0 <= m.value <= 100.0
    ensures m.Some? && !HasLine(t, lines[0]) ==> m.value == 0.0
  {
    if lines == [] then None
    else
      var p := LineProgress(t, lines[0]);
      assert !HasLine(t, lines[0]) ==> p.total == 0 by {
        if p.total != 0 {
          var rows := LineRows(t, lines[0]);
          assert rows[0] in rows;
        }
      }
      Some(Percent(p))
  }

  /** The rows of one care line in a sheet extended by one row. */
  lemma LineRowsSnoc(p: seq<Row>, last: Row, line: string)
    ensures LineRows(p + [last], line) == if last.line == line then LineRows(p, line) + [last] else LineRows(p, line)
  {
    WhereSnoc(p, last, LineMask(line));
    assert LineRows(p, line) + [] == LineRows(p, line);
  }

  /** The group size of lines 118-119 is the `total` of line 129. */
  lemma {:induction false} GroupSizeIsTotal(t: seq<Row>, line: string)
    ensures |LineRows(t, line)| == GroupSize(t, line)
  {
    if t != [] {
      var n := |t| - 1;
      GroupSizeIsTotal(t[..n], line);
      SplitLast(t);
      LineRowsSnoc(t[..n], t[n], line);
    }
  }

  /** The flag sum of lines 118-119 is the `concluidos` of line 130: summing
      the flags of a group counts the group's rows that pass. */
  lemma {:induction false} FlagSumIsDone(t: seq<Row>, line: string, complete: Row -> bool)
    ensures |Where(LineRows(t, line), complete)| == FlagSum(t, line, complete)
  {
    if t != [] {
      var p := t[..|t| - 1];
      FlagSumIsDone(p, line, complete);
      SplitLast(t);
      FlagSumStep(p, t[|t| - 1], line, complete);
    } else {
      assert LineRows(t, line) == [];
    }
  }

  /** One more row adds its flag to the flag sum and, when it is on the line
      and passes, one row to the count. */
  lemma FlagSumStep(p: seq<Row>, last: Row, line: string, complete: Row -> bool)
    requires |Where(LineRows(p, line), complete)| == FlagSum(p, line, complete)
    ensures |Where(LineRows(p + [last], line), complete)| == FlagSum(p + [last], line, complete)
  {
    assert (p + [last])[..|p|] == p;
    LineRowsSnoc(p, last, line);
    if last.line == line {
      WhereSnoc(LineRows(p, line), last, complete);
    }
  }

  /** The chart of all lines and the metric of one line are two computations
      of the same ratio: the flag mean of lines 118-119 and the counts of
      lines 128-130 agree for every care line of the sheet. */
  lemma ProgressAgrees(t: seq<Row>, line: string)
    requires HasLine(t, line)
    ensures line in OverallProgress(t) && OverallProgress(t)[line] == LineProgress(t, line)
  {
    GroupSizeIsTotal(t, line);
    FlagSumIsDone(t, line, RowComplete);
  }

  /** A worked example: a line whose four rows are done, ongoing, pending and
      in progress stands at 50%. */
  lemma HalfDoneExample()
    ensures var t := [Row("X", "F", "1", Done, ""), Row("X", "F", "2", Ongoing, ""),
                      Row("X", "F", "3", Pending, ""), Row("X", "F", "4", InProgress, "")];
      Percent(LineProgress(t, "X")) == 50.0 && SelectedLineMetric(t, ["X"]) == Some(50.0)
  {
    var t := [Row("X", "F", "1", Done, ""), Row("X", "F", "2", Ongoing, ""),
              Row("X", "F", "3", Pending, ""), Row("X", "F", "4", InProgress, "")];
    StatusOptionsCompleted();
    WhereAll(t, LineMask("X"));
    MaskKeepsFirstTwo(t[0], t[1], t[2], t[3], RowComplete);
    assert [t[0], t[1], t[2], t[3]] == t;
    assert LineProgress(t, "X") == Ratio(2, 4);
  }

  /** Line 136: the status distribution leaves out every row whose lower-cased
      status contains "ação contínua". */
  predicate InDistribution(r: Row)
  {
    !Contains(Lower(r.status), OngoingLower)
  }

  function DistributionRows(t: seq<Row>): (s: seq<Row>)
    ensures |s| <= |t|
    ensures forall r :: r in s <==> r in t && InDistribution(r)
  {
    Where(t, InDistribution)
  }

  /** The ongoing status the edit form writes never enters the distribution. */
  lemma OngoingLeftOut(t: seq<Row>)
    ensures forall r :: r in DistributionRows(t) ==> r.status != Ongoing
  {
    assert OccursAt(Lower(Ongoing), OngoingLower, 0);
  }

  /** Every row kept in the distribution keeps all its occurrences, so the
      proportions among the other statuses are those of the sheet. */
  lemma DistributionCount(t: seq<Row>, x: Row)
    ensures Count(DistributionRows(t), x) == if InDistribution(x) then Count(t, x) else 0
  {
    WhereCount(t, InDistribution, x);
  }
}
