/** The care-pathway tracking sheet and the two transactions that change it:
    the edit form (a status and a note written into every row of the chosen
    line, phase and task) and the add-line form (a new care line seeded with
    every distinct phase and task of the sheet). The spreadsheet file is the
    field `file`; saving it is `file := rows`. */
module Sheet {
  import opened Wrappers
  import opened Seqs
  import Text

  /** One row of the sheet: the columns Linha de Cuidado, Fase, Tarefa, Status
      and Observações. */
  datatype Row = Row(line: string, phase: string, task: string, status: string, note: string)

  /** The four statuses the edit form offers. */
  const Pending: string := "Pendente"
  const InProgress: string := "Em andamento"
  const Done: string := "Conclu\U{ED}do"
  const Ongoing: string := "A\U{E7}\U{E3}o Cont\U{ED}nua"
  const StatusOptions: seq<string> := [Pending, InProgress, Done, Ongoing]

  /** What the three pickers of the edit form hold. A picker whose option list
      is empty holds `None`, which equals no cell. */
  datatype Choice = Choice(line: Option<string>, phase: Option<string>, task: Option<string>)

  /** The mask of the edit form: line, phase and task all equal the chosen ones. */
  predicate Matches(r: Row, c: Choice)
  {
    c.line == Some(r.line) && c.phase == Some(r.phase) && c.task == Some(r.task)
  }

  predicate AnyMatch(t: seq<Row>, c: Choice)
  {
    exists k :: 0 <= k < |t| && Matches(t[k], c)
  }

  /** Some row is on care line `x`. */
  predicate HasLine(t: seq<Row>, x: string)
  {
    exists k :: 0 <= k < |t| && t[k].line == x
  }

  /** The note written by the edit form: the supplied text, except that a row
      marked done has its note cleared. */
  function NoteAfter(status: string, note: string): (n: string)
    ensures status == Done ==> n == ""
    ensures status != Done ==> n == note
  {
    if status != Done then note else ""
  }

  /** The sheet after the edit form: rows matching the choice take the new
      status and note, every other row and every line, phase and task cell is
      as before. */
  function Edited(t: seq<Row>, c: Choice, status: string, note: string): (r: seq<Row>)
    ensures |r| == |t|
    ensures forall k :: 0 <= k < |t| ==>
      r[k].line == t[k].line && r[k].phase == t[k].phase && r[k].task == t[k].task
    ensures forall k :: 0 <= k < |t| && Matches(t[k], c) ==>
      r[k].status == status && r[k].note == NoteAfter(status, note)
    ensures forall k :: 0 <= k < |t| && !Matches(t[k], c) ==> r[k] == t[k]
  {
    seq(|t|, k requires 0 <= k < |t| =>
      if Matches(t[k], c) then t[k].(status := status, note := NoteAfter(status, note)) else t[k])
  }

  /** An edit whose choice matches no row leaves the sheet as it was. */
  lemma EditedNoMatch(t: seq<Row>, c: Choice, status: string, note: string)
    requires !AnyMatch(t, c)
    ensures Edited(t, c, status, note) == t
  {
    var r := Edited(t, c, status, note);
    assert forall k :: 0 <= k < |t| ==> r[k] == t[k];
  }

  /** Submitting the same edit twice has the effect of submitting it once. */
  lemma EditedIdempotent(t: seq<Row>, c: Choice, status: string, note: string)
    ensures Edited(Edited(t, c, status, note), c, status, note) == Edited(t, c, status, note)
  {
    var r := Edited(t, c, status, note);
    var r2 := Edited(r, c, status, note);
    assert forall k :: 0 <= k < |t| ==> r2[k] == r[k];
  }

  /** Reading back an edited row gives the status just written, and a row
      marked done reads back with an empty note whatever text was supplied. */
  lemma EditReadBack(t: seq<Row>, k: nat, status: string, note: string)
    requires k < |t|
    ensures var c := Choice(Some(t[k].line), Some(t[k].phase), Some(t[k].task));
      var r := Edited(t, c, status, note);
      r[k].status == status && (status == Done ==> r[k].note == "") && AnyMatch(r, c)
  {
    var c := Choice(Some(t[k].line), Some(t[k].phase), Some(t[k].task));
    assert Matches(t[k], c);
    assert Matches(Edited(t, c, status, note)[k], c);
  }

  /** The (Fase, Tarefa) pair of every row, in table order. */
  function Pairs(t: seq<Row>): (p: seq<(string, string)>)
    ensures |p| == |t|
    ensures forall k :: 0 <= k < |t| ==> p[k] == (t[k].phase, t[k].task)
  {
    seq(|t|, k requires 0 <= k < |t| => (t[k].phase, t[k].task))
  }

  /** `df.drop_duplicates(subset=["Fase", "Tarefa"])[["Fase", "Tarefa"]]`: the
      distinct (phase, task) pairs of the whole sheet, first occurrence kept. */
  function Templates(t: seq<Row>): (p: seq<(string, string)>)
    ensures NoDups(p) && |p| <= |t|
    ensures forall k :: 0 <= k < |t| ==> (t[k].phase, t[k].task) in p
    ensures forall q :: q in p ==> exists k :: 0 <= k < |t| && q == (t[k].phase, t[k].task)
  {
    var ps := Pairs(t);
    var u := Unique(ps);
    assert forall k :: 0 <= k < |t| ==> ps[k] in ps;
    u
  }

  /** A row created by the add-line form for one template pair. */
  function NewRow(name: string, pair: (string, string)): Row
  {
    Row(name, pair.0, pair.1, Pending, "")
  }

  /** The rows the add-line form appends: one per template pair, in template
      order, each carrying the new line name, status pending and an empty note. */
  function NewRows(name: string, pairs: seq<(string, string)>): (r: seq<Row>)
    ensures |r| == |pairs|
    ensures Pairs(r) == pairs
    ensures forall k :: 0 <= k < |r| ==> r[k].line == name && r[k].status == Pending && r[k].note == ""
  {
    var r := seq(|pairs|, k requires 0 <= k < |pairs| => NewRow(name, pairs[k]));
    assert forall k :: 0 <= k < |r| ==> Pairs(r)[k] == pairs[k];
    r
  }

  /** Each (phase, task) pair present in the sheet is given to the new line by
      exactly one appended row, and no appended row carries a pair the sheet
      does not have. */
  lemma {:induction false} NewRowsCoverEachPairOnce(t: seq<Row>, name: string)
    ensures var added := NewRows(name, Templates(t));
      (forall k :: 0 <= k < |t| ==> Count(Pairs(added), (t[k].phase, t[k].task)) == 1) &&
      (forall j :: 0 <= j < |added| ==>
         (exists k :: 0 <= k < |t| && added[j].phase == t[k].phase && added[j].task == t[k].task))
  {
    var templates := Templates(t);
    var added := NewRows(name, templates);
    forall k | 0 <= k < |t| ensures Count(Pairs(added), (t[k].phase, t[k].task)) == 1 {
      NoDupsCountOne(templates, (t[k].phase, t[k].task));
    }
    forall j | 0 <= j < |added|
      ensures exists k :: 0 <= k < |t| && added[j].phase == t[k].phase && added[j].task == t[k].task
    {
      assert Pairs(added)[j] == templates[j];
      assert templates[j] in templates;
    }
  }

  /** A worked example: a sheet whose distinct (phase, task) pairs are (A, 1),
      (A, 2) and (B, 1) gains exactly three pending rows with empty notes under
      the new line "Oncologia". */
  lemma OncologiaExample()
    ensures var t := [Row("L1", "A", "1", Done, "x"), Row("L1", "A", "2", Pending, ""),
                      Row("L2", "A", "1", Ongoing, ""), Row("L2", "B", "1", InProgress, "y")];
      NewRows("Oncologia", Templates(t)) ==
        [Row("Oncologia", "A", "1", Pending, ""), Row("Oncologia", "A", "2", Pending, ""),
         Row("Oncologia", "B", "1", Pending, "")]
  {
    var t := [Row("L1", "A", "1", Done, "x"), Row("L1", "A", "2", Pending, ""),
              Row("L2", "A", "1", Ongoing, ""), Row("L2", "B", "1", InProgress, "y")];
    var a1, a2, b1 := ("A", "1"), ("A", "2"), ("B", "1");
    assert Pairs(t) == [a1, a2, a1, b1];
    UniqueOfFour(a1, a2, b1);
    assert Templates(t) == [a1, a2, b1];
  }

  /** No two rows share a line, phase and task. The dashboard expects this but
      does not enforce it. */
  predicate KeysUnique(t: seq<Row>)
  {
    forall i, j :: 0 <= i < j < |t| ==>
      (t[i].line, t[i].phase, t[i].task) != (t[j].line, t[j].phase, t[j].task)
  }

  /** Adding a line under a name no row uses yet keeps the keys unique; under
      an existing name the appended rows may repeat keys. */
  lemma {:induction false} NewRowsKeepKeysUnique(t: seq<Row>, name: string)
    requires KeysUnique(t)
    requires forall k :: 0 <= k < |t| ==> t[k].line != name
    ensures KeysUnique(t + NewRows(name, Templates(t)))
  {
    var templates := Templates(t);
    var added := NewRows(name, templates);
    var s := t + added;
    forall i, j | 0 <= i < j < |s|
      ensures (s[i].line, s[i].phase, s[i].task) != (s[j].line, s[j].phase, s[j].task)
    {
      if j >= |t| && i >= |t| {
        assert Pairs(added)[i - |t|] == templates[i - |t|];
        assert Pairs(added)[j - |t|] == templates[j - |t|];
      }
    }
  }

  /** The mask `df[(line == l) & (phase == p) & (task == k)].index` of the
      edit form: the positions of the matching rows, in increasing order. */
  method MatchIndex(t: seq<Row>, c: Choice) returns (idx: seq<nat>)
    ensures forall j :: 0 <= j < |idx| ==> idx[j] < |t| && Matches(t[idx[j]], c)
    ensures forall k :: 0 <= k < |t| && Matches(t[k], c) ==> k in idx
    ensures forall i, j :: 0 <= i < j < |idx| ==> idx[i] < idx[j]
    ensures |idx| > 0 <==> AnyMatch(t, c)
  {
    idx := [];
    var k := 0;
    while k < |t|
      invariant 0 <= k <= |t|
      invariant forall j :: 0 <= j < |idx| ==> idx[j] < k && Matches(t[idx[j]], c)
      invariant forall m :: 0 <= m < k && Matches(t[m], c) ==> m in idx
      invariant forall i, j :: 0 <= i < j < |idx| ==> idx[i] < idx[j]
    {
      if Matches(t[k], c) {
        idx := idx + [k];
      }
      k := k + 1;
    }
    if AnyMatch(t, c) {
      var m :| 0 <= m < |t| && Matches(t[m], c);
      assert m in idx;
    }
    if |idx| > 0 {
      assert Matches(t[idx[0]], c);
    }
  }

  /** Lines 64-72: the list `nova_entrada`, one new row per template pair. */
  method BuildEntries(name: string, templates: seq<(string, string)>) returns (entries: seq<Row>)
    ensures entries == NewRows(name, templates)
  {
    entries := [];
    var i := 0;
    while i < |templates|
      invariant 0 <= i <= |templates| && |entries| == i
      invariant forall k :: 0 <= k < i ==> entries[k] == NewRow(name, templates[k])
    {
      entries := entries + [Row(name, templates[i].0, templates[i].1, Pending, "")];
      i := i + 1;
    }
    assert forall k :: 0 <= k < |entries| ==> entries[k] == NewRows(name, templates)[k];
  }

  /** The sheet in memory (`df`) and the spreadsheet file it is saved to. */
  class Sheet {
    var rows: seq<Row>
    var file: seq<Row>

    /** `carregar_dados()`: the sheet starts as the file's contents. */
    constructor Load(contents: seq<Row>)
      ensures rows == contents && file == contents
    {
      rows := contents;
      file := contents;
    }

    /** `salvar_dados(df)`: the file is overwritten with the whole sheet. */
    method Save()
      modifies this`file
      ensures file == rows
    {
      file := rows;
    }

    /** The edit form's submit handler. Every row matching the choice takes
      the new status and note; the sheet is saved exactly when some row
      matched, and is left as it was otherwise. */
    method Edit(c: Choice, status: string, note: string) returns (saved: bool)
      modifies this
      ensures saved <==> AnyMatch(old(rows), c)
      ensures rows == Edited(old(rows), c, status, note)
      ensures saved ==> file == rows
      ensures !saved ==> rows == old(rows) && file == old(file)
    {
      var idx := MatchIndex(rows, c);
      saved := |idx| > 0;
      if saved {
        ghost var t := rows;
        var newNote := NoteAfter(status, note);
        var j := 0;
        while j < |idx|
          invariant 0 <= j <= |idx| && |rows| == |t|
          invariant forall k :: 0 <= k < |t| ==>
            rows[k] == if k in idx[..j] then t[k].(status := status, note := newNote) else t[k]
        {
          assert idx[..j + 1] == idx[..j] + [idx[j]];
          rows := rows[idx[j] := rows[idx[j]].(status := status, note := newNote)];
          j := j + 1;
        }
        assert idx[..j] == idx;
        Save();
      } else {
        EditedNoMatch(rows, c, status, note);
      }
    }

    /** The add-line form's submit handler. A name that is blank once stripped
      changes nothing; otherwise the sheet is extended by one row per template
      pair under the stripped name, and saved. */
    method AddLine(name: string) returns (saved: bool)
      modifies this
      ensures saved <==> Text.Strip(name) != ""
      ensures saved ==> rows == old(rows) + NewRows(Text.Strip(name), Templates(old(rows))) && file == rows
      ensures !saved ==> rows == old(rows) && file == old(file)
    {
      var stripped := Text.Strip(name);
      saved := stripped != "";
      if saved {
        var entries := BuildEntries(stripped, Templates(rows));
        rows := rows + entries;
        Save();
      }
    }
  }
}
