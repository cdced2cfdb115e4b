/** The browse view: three multi-select filters over care line, phase and
    status, and the rows that pass all three, in sheet order. */
module View {
  import opened Wrappers
  import opened Seqs
  import opened Sheet
  import opened Cascade

  function StatusValues(t: seq<Row>): (col: seq<string>)
    ensures |col| == |t| && forall k :: 0 <= k < |t| ==> col[k] == t[k].status
  {
    seq(|t|, k requires 0 <= k < |t| => t[k].status)
  }

  /** The default of the phase filter, `df["Fase"].unique()`: every phase of the sheet. */
  function AllPhases(t: seq<Row>): (opts: seq<string>)
    ensures NoDups(opts)
    ensures forall x :: x in opts <==> exists k :: 0 <= k < |t| && t[k].phase == x
  {
    var col := PhaseColumn(Keys(t));
    assert forall k :: 0 <= k < |t| ==> col[k] in col;
    Unique(col)
  }

  /** The default of the status filter, `df["Status"].unique()`: every status of the sheet. */
  function AllStatuses(t: seq<Row>): (opts: seq<string>)
    ensures NoDups(opts)
    ensures forall x :: x in opts <==> exists k :: 0 <= k < |t| && t[k].status == x
  {
    var col := StatusValues(t);
    assert forall k :: 0 <= k < |t| ==> col[k] in col;
    Unique(col)
  }

  /** The three `isin` tests joined by `&`. */
  predicate Passes(r: Row, lines: seq<string>, phases: seq<string>, statuses: seq<string>)
  {
    r.line in lines && r.phase in phases && r.status in statuses
  }

  /** `df_filtrado`: the rows whose line, phase and status are each among the
      selected ones, in sheet order. */
  function Filtered(t: seq<Row>, lines: seq<string>, phases: seq<string>, statuses: seq<string>): (v: seq<Row>)
    ensures |v| <= |t|
    ensures forall r :: r in v <==> r in t && Passes(r, lines, phases, statuses)
  {
    Where(t, (r: Row) => Passes(r, lines, phases, statuses))
  }

  /** Filtering keeps the sheet's order: the view of two consecutive blocks of
      rows is the view of the first block followed by the view of the second. */
  lemma FilteredKeepsOrder(a: seq<Row>, b: seq<Row>, lines: seq<string>, phases: seq<string>, statuses: seq<string>)
    ensures Filtered(a + b, lines, phases, statuses) ==
      Filtered(a, lines, phases, statuses) + Filtered(b, lines, phases, statuses)
  {
    WhereAppend(a, b, (r: Row) => Passes(r, lines, phases, statuses));
  }

  /** A row that passes appears in the view as often as in the sheet; any
      other row does not appear at all. */
  lemma FilteredCount(t: seq<Row>, lines: seq<string>, phases: seq<string>, statuses: seq<string>, x: Row)
    ensures Count(Filtered(t, lines, phases, statuses), x) ==
      if Passes(x, lines, phases, statuses) then Count(t, x) else 0
  {
    WhereCount(t, (r: Row) => Passes(r, lines, phases, statuses), x);
  }

  /** With every filter at its default, all distinct values of its column,
      the view is the whole sheet. */
  lemma DefaultFiltersShowAll(t: seq<Row>)
    ensures Filtered(t, LineOptions(t), AllPhases(t), AllStatuses(t)) == t
  {
    var lines, phases, statuses := LineOptions(t), AllPhases(t), AllStatuses(t);
    forall r | r in t ensures Passes(r, lines, phases, statuses) {
      var k :| 0 <= k < |t| && t[k] == r;
      assert HasLine(t, r.line);
    }
    WhereAll(t, (r: Row) => Passes(r, lines, phases, statuses));
  }

  /** "Editar esta tarefa" on a row of the view stores that row as the edit
      target; on the next run the cascade selects exactly that row. */
  lemma BrowseEditSelectsRow(t: seq<Row>, lines: seq<string>, phases: seq<string>, statuses: seq<string>, j: nat)
    requires j < |Filtered(t, lines, phases, statuses)|
    requires var r := Filtered(t, lines, phases, statuses)[j]; r.line != "" && r.phase != "" && r.task != ""
    ensures var r := Filtered(t, lines, phases, statuses)[j];
      Select(t, Target(Some(r.line), Some(r.phase), Some(r.task))) ==
        Ok(Choice(Some(r.line), Some(r.phase), Some(r.task)))
  {
    var r := Filtered(t, lines, phases, statuses)[j];
    assert r in Filtered(t, lines, phases, statuses);
    var k :| 0 <= k < |t| && t[k] == r;
    TargetFromRowSelectsIt(t, k);
  }

  /** Lines 107-108: the "Editar esta tarefa" button of the `j`-th listed row
      stores that row as the session's edit target, and on the next run the
      cascade started from the session selects exactly that row. */
  method EditListedRow(session: Session, t: seq<Row>, lines: seq<string>, phases: seq<string>, statuses: seq<string>, j: nat)
    requires j < |Filtered(t, lines, phases, statuses)|
    requires var r := Filtered(t, lines, phases, statuses)[j]; r.line != "" && r.phase != "" && r.task != ""
    modifies session
    ensures var r := Filtered(t, lines, phases, statuses)[j];
      session.CurrentTarget() == Target(Some(r.line), Some(r.phase), Some(r.task))
    ensures var r := Filtered(t, lines, phases, statuses)[j];
      Select(t, session.CurrentTarget()) == Ok(Choice(Some(r.line), Some(r.phase), Some(r.task)))
  {
    var r := Filtered(t, lines, phases, statuses)[j];
    session.SelectForEdit(r.line, r.phase, r.task);
    BrowseEditSelectsRow(t, lines, phases, statuses, j);
  }
}
