/** The three dependent pickers of the edit form (care line, then phase, then
    task) and the session's pending edit target that pre-selects them. */
module Cascade {
  import opened Wrappers
  import opened Seqs
  import opened Sheet

  /** The identifying cells of a row. */
  datatype Key = Key(line: string, phase: string, task: string)

  function Keys(t: seq<Row>): (ks: seq<Key>)
    ensures |ks| == |t|
    ensures forall k :: 0 <= k < |t| ==> ks[k] == Key(t[k].line, t[k].phase, t[k].task)
  {
    seq(|t|, k requires 0 <= k < |t| => Key(t[k].line, t[k].phase, t[k].task))
  }

  function LineColumn(ks: seq<Key>): (col: seq<string>)
    ensures |col| == |ks| && forall k :: 0 <= k < |ks| ==> col[k] == ks[k].line
  {
    seq(|ks|, k requires 0 <= k < |ks| => ks[k].line)
  }

  function PhaseColumn(ks: seq<Key>): (col: seq<string>)
    ensures |col| == |ks| && forall k :: 0 <= k < |ks| ==> col[k] == ks[k].phase
  {
    seq(|ks|, k requires 0 <= k < |ks| => ks[k].phase)
  }

  function TaskColumn(ks: seq<Key>): (col: seq<string>)
    ensures |col| == |ks| && forall k :: 0 <= k < |ks| ==> col[k] == ks[k].task
  {
    seq(|ks|, k requires 0 <= k < |ks| => ks[k].task)
  }

  /** Some row on the chosen care line is in phase `x`. */
  predicate HasPhase(t: seq<Row>, line: Option<string>, x: string)
  {
    exists k :: 0 <= k < |t| && Some(t[k].line) == line && t[k].phase == x
  }

  /** Some row on the chosen care line and phase is task `x`. */
  predicate HasTask(t: seq<Row>, line: Option<string>, phase: Option<string>, x: string)
  {
    exists k :: 0 <= k < |t| && Some(t[k].line) == line && Some(t[k].phase) == phase && t[k].task == x
  }

  /** `df["Linha de Cuidado"].unique()`: the care lines, each once, in first-seen order. */
  function LineOptions(t: seq<Row>): (opts: seq<string>)
    ensures NoDups(opts)
    ensures forall x :: x in opts <==> HasLine(t, x)
  {
    var col := LineColumn(Keys(t));
    assert forall k :: 0 <= k < |t| ==> col[k] in col;
    Unique(col)
  }

  /** `df[df["Linha de Cuidado"] == line]["Fase"].unique()`: the phases of the
      chosen care line, each once, in first-seen order. */
  function PhaseOptions(t: seq<Row>, line: Option<string>): (opts: seq<string>)
    ensures NoDups(opts)
    ensures forall x :: x in opts <==> HasPhase(t, line, x)
  {
    var ks := Keys(t);
    var sel := Where(ks, (key: Key) => Some(key.line) == line);
    var col := PhaseColumn(sel);
    assert forall k :: 0 <= k < |t| && Some(t[k].line) == line ==> ks[k] in sel;
    assert forall j :: 0 <= j < |col| ==> col[j] in col && sel[j] in sel;
    Unique(col)
  }

  /** `df[(line == l) & (phase == p)]["Tarefa"].unique()`: the tasks of the
      chosen care line and phase, each once, in first-seen order. */
  function TaskOptions(t: seq<Row>, line: Option<string>, phase: Option<string>): (opts: seq<string>)
    ensures NoDups(opts)
    ensures forall x :: x in opts <==> HasTask(t, line, phase, x)
  {
    var ks := Keys(t);
    var sel := Where(ks, (key: Key) => Some(key.line) == line && Some(key.phase) == phase);
    var col := TaskColumn(sel);
    assert forall k :: 0 <= k < |t| && Some(t[k].line) == line && Some(t[k].phase) == phase ==> ks[k] in sel;
    assert forall j :: 0 <= j < |col| ==> col[j] in col && sel[j] in sel;
    Unique(col)
  }

  /** Python truthiness of a stored target: `None` and `""` are false. */
  predicate Truthy(stored: Option<string>)
  {
    stored.Some? && stored.value != ""
  }

  /** `index=0 if not stored else list(opts).index(stored)`: the pre-selected
      position. A stored value missing from the options raises `ValueError`,
      modelled as `Err` carrying that value. */
  function DefaultIndex(opts: seq<string>, stored: Option<string>): (r: Result<nat, string>)
    ensures !Truthy(stored) ==> r == Ok(0)
    ensures Truthy(stored) ==> (r.Ok? <==> stored.value in opts)
    ensures Truthy(stored) && r.Ok? ==>
      r.value < |opts| && opts[r.value] == stored.value &&
      forall k :: 0 <= k < r.value ==> opts[k] != stored.value
    ensures r.Err? ==> r.error == stored.value
  {
    if !Truthy(stored) then Ok(0) else IndexOf(opts, stored.value)
  }

  /** `st.selectbox(label, opts, index)`: the option at `index`, or `None` when
      there are no options. Streamlit rejects an index outside a non-empty list. */
  function Pick(opts: seq<string>, index: nat): (v: Option<string>)
    requires opts == [] || index < |opts|
    ensures v.Some? <==> opts != []
    ensures v.Some? ==> v.value in opts
  {
    if opts == [] then None else Some(opts[index])
  }

  /** One picker: the option it starts at, given its options and the stored
      target for it; `Err` when `list.index` raises. */
  function PickDefault(opts: seq<string>, stored: Option<string>): (r: Result<Option<string>, string>)
    ensures r.Ok? ==> (r.value.Some? <==> opts != []) && (r.value.Some? ==> r.value.value in opts)
    ensures r.Ok? && Truthy(stored) ==> r.value == stored
    ensures r.Ok? && !Truthy(stored) && opts != [] ==> r.value == Some(opts[0])
    ensures r.Err? <==> Truthy(stored) && stored.value !in opts
    ensures r.Err? ==> r.error == stored.value
  {
    match DefaultIndex(opts, stored)
    case Err(v) => Err(v)
    case Ok(i) => Ok(Pick(opts, i))
  }

  /** The pending edit target kept in the session: `linha_edit`, `fase_edit`
      and `tarefa_edit`. */
  datatype Target = Target(line: Option<string>, phase: Option<string>, task: Option<string>)

  /** A care line present in the sheet offers at least one phase. */
  lemma LineHasPhases(t: seq<Row>, x: string)
    requires HasLine(t, x)
    ensures PhaseOptions(t, Some(x)) != []
  {
    var k :| 0 <= k < |t| && t[k].line == x;
    assert HasPhase(t, Some(x), t[k].phase);
  }

  /** A phase present on the chosen care line offers at least one task. */
  lemma PhaseHasTasks(t: seq<Row>, line: Option<string>, y: string)
    requires HasPhase(t, line, y)
    ensures TaskOptions(t, line, Some(y)) != []
  {
    var k :| 0 <= k < |t| && Some(t[k].line) == line && t[k].phase == y;
    assert HasTask(t, line, Some(y), t[k].task);
  }

  /** The cascade of the edit form: each picker offers the options left by the
      pickers above it and starts at the position the target gives it. On a
      non-empty sheet the selection always names a row of the sheet; a stored
      target that is not among a picker's options makes the form fail: there
      is no fall-back to the first option. A truthy stored target is what its
      picker starts at; without one the line picker starts at the first line. */
  function Select(t: seq<Row>, target: Target): (r: Result<Choice, string>)
    ensures r.Ok? ==> (r.value.line.Some? <==> t != [])
    ensures r.Ok? && t != [] ==> r.value.phase.Some? && r.value.task.Some? && AnyMatch(t, r.value)
    ensures r.Err? ==> r.error != "" && (Some(r.error) == target.line || Some(r.error) == target.phase || Some(r.error) == target.task)
    ensures Truthy(target.line) && target.line.value !in LineOptions(t) ==> r.Err?
    ensures r.Ok? && Truthy(target.line) ==> r.value.line == target.line
    ensures r.Ok? && Truthy(target.phase) ==> r.value.phase == target.phase
    ensures r.Ok? && Truthy(target.task) ==> r.value.task == target.task
    ensures r.Ok? && t != [] && !Truthy(target.line) ==> r.value.line == Some(LineOptions(t)[0])
  {
    match PickDefault(LineOptions(t), target.line)
    case Err(v) => Err(v)
    case Ok(line) =>
      var phaseOpts := PhaseOptions(t, line);
      assert line.Some? ==> phaseOpts != [] by {
        if line.Some? { LineHasPhases(t, line.value); }
      }
      match PickDefault(phaseOpts, target.phase)
      case Err(v) => Err(v)
      case Ok(phase) =>
        var taskOpts := TaskOptions(t, line, phase);
        assert phase.Some? ==> taskOpts != [] by {
          if phase.Some? { PhaseHasTasks(t, line, phase.value); }
        }
        match PickDefault(taskOpts, target.task)
        case Err(v) => Err(v)
        case Ok(task) =>
          var c := Choice(line, phase, task);
          assert task.Some? ==> AnyMatch(t, c) by {
            if task.Some? {
              assert HasTask(t, line, phase, task.value);
              var k :| 0 <= k < |t| && Some(t[k].line) == line && Some(t[k].phase) == phase && t[k].task == task.value;
              assert Matches(t[k], c);
            }
          }
          Ok(c)
  }

  /** A target taken from a row of the sheet whose cells are non-empty makes
      the cascade select exactly that row's line, phase and task. */
  lemma TargetFromRowSelectsIt(t: seq<Row>, k: nat)
    requires k < |t|
    requires t[k].line != "" && t[k].phase != "" && t[k].task != ""
    ensures Select(t, Target(Some(t[k].line), Some(t[k].phase), Some(t[k].task))) ==
      Ok(Choice(Some(t[k].line), Some(t[k].phase), Some(t[k].task)))
  {
    var lineOpts := LineOptions(t);
    assert t[k].line in lineOpts;
    var phaseOpts := PhaseOptions(t, Some(t[k].line));
    assert t[k].phase in phaseOpts;
    var taskOpts := TaskOptions(t, Some(t[k].line), Some(t[k].phase));
    assert t[k].task in taskOpts;
  }

  /** With no pending target the cascade selects the first row's line, phase
      and task: every picker starts at its first option, which is first seen
      in the first row. */
  lemma DefaultSelectsFirstRow(t: seq<Row>)
    requires t != []
    ensures Select(t, Target(None, None, None)) ==
      Ok(Choice(Some(t[0].line), Some(t[0].phase), Some(t[0].task)))
  {
    var ks := Keys(t);
    UniqueHead(LineColumn(ks));
    var line := Some(t[0].line);
    var pkeep := (key: Key) => Some(key.line) == line;
    WhereHead(ks, pkeep);
    UniqueHead(PhaseColumn(Where(ks, pkeep)));
    var phase := Some(t[0].phase);
    var tkeep := (key: Key) => Some(key.line) == line && Some(key.phase) == phase;
    WhereHead(ks, tkeep);
    UniqueHead(TaskColumn(Where(ks, tkeep)));
  }

  /** The edit form changes only statuses and notes, so after an edit every
      picker offers the same options as before. */
  lemma EditKeepsOptions(t: seq<Row>, c: Choice, status: string, note: string, line: Option<string>, phase: Option<string>)
    ensures var e := Edited(t, c, status, note);
      LineOptions(e) == LineOptions(t) && PhaseOptions(e, line) == PhaseOptions(t, line) &&
      TaskOptions(e, line, phase) == TaskOptions(t, line, phase)
  {
    var e := Edited(t, c, status, note);
    assert Keys(e) == Keys(t);
  }

  /** The session state behind the "edit this task" buttons of the browse list. */
  class Session {
    var lineEdit: Option<string>
    var phaseEdit: Option<string>
    var taskEdit: Option<string>

    /** The first run of a session: no pending target. */
    constructor ()
      ensures lineEdit == None && phaseEdit == None && taskEdit == None
    {
      lineEdit, phaseEdit, taskEdit := None, None, None;
    }

    function CurrentTarget(): (target: Target)
      reads this
      ensures target.line == lineEdit && target.phase == phaseEdit && target.task == taskEdit
    {
      Target(lineEdit, phaseEdit, taskEdit)
    }

    /** `on_click_editar(linha, fase, tarefa)`: remember the row to pre-select. */
    method SelectForEdit(line: string, phase: string, task: string)
      modifies this
      ensures lineEdit == Some(line) && phaseEdit == Some(phase) && taskEdit == Some(task)
    {
      lineEdit := Some(line);
      phaseEdit := Some(phase);
      taskEdit := Some(task);
    }
  }
}
