/** `POST /api/cards/batch`: generates the cards of the chosen employees and
    records the generated files on their rows. Employee ids in the request
    are the table's primary keys. The card generator is the one of
    `CardGenerator`; whether it throws for an employee (a template image it
    cannot load, a directory it cannot write, the canvas module missing) and
    the clock reading its file naming may fall back to are parameters. */
module CardsBatch {
  import opened Wrappers
  import opened Store
  import opened CardGenerator
  import opened TemplateUpload

  const NoEmployeesError := "No employees found"
  const FailedCardPrefix := "Failed to generate card for "
  const FrontKind := "front"
  const BackKind := "back"

  /** `{ id: { in: employeeIds } }` when ids were sent, whatever `isActive`
      says; `{ isActive: true }` otherwise. */
  predicate Selected(e: Employee, ids: seq<nat>) {
    if |ids| > 0 then e.id in ids else e.isActive
  }

  /** Positions of the selected rows, in table order. */
  function Selection(rows: seq<Employee>, ids: seq<nat>): (sel: seq<nat>)
    ensures forall j :: 0 <= j < |sel| ==> sel[j] < |rows| && Selected(rows[sel[j]], ids)
    ensures forall j, l :: 0 <= j < l < |sel| ==> sel[j] < sel[l]
    ensures forall k :: 0 <= k < |rows| && Selected(rows[k], ids) ==> k in sel
    decreases |rows|
  {
    if rows == [] then []
    else
      var n := |rows| - 1;
      var prev := Selection(rows[..n], ids);
      if Selected(rows[n], ids) then prev + [n] else prev
  }

  /** `findFirst({ where: { type: kind, isActive: true } })`, taking the
      first such row in table order. */
  function FirstActive(templates: seq<Template>, kind: string): (r: Option<Template>)
    ensures r.Some? ==> r.value in templates && r.value.isActive && r.value.kind == kind
    ensures r.None? ==> forall t :: t in templates ==> !(t.isActive && t.kind == kind)
  {
    if templates == [] then None
    else if templates[0].isActive && templates[0].kind == kind then Some(templates[0])
    else FirstActive(templates[1..], kind)
  }

  /** While the template uploads keep one active template per type, the
      template found is the active one of that type, whatever the order. */
  lemma {:induction false} FirstActiveIsTheActiveOne(templates: seq<Template>, kind: string, i: nat)
    requires OneActivePerKind(templates)
    requires i < |templates| && templates[i].isActive && templates[i].kind == kind
    ensures FirstActive(templates, kind) == Some(templates[i])
  {
    if i > 0 && !(templates[0].isActive && templates[0].kind == kind) {
      assert OneActivePerKind(templates[1..]) by {
        forall a, b | 0 <= a < b < |templates[1..]| && templates[1..][a].isActive && templates[1..][b].isActive
          ensures templates[1..][a].kind != templates[1..][b].kind
        {
          assert templates[1..][a] == templates[a + 1] && templates[1..][b] == templates[b + 1];
        }
      }
      FirstActiveIsTheActiveOne(templates[1..], kind, i - 1);
    }
  }

  /** What the generator needs from outside: whether generating an
      employee's card with the given front and back templates throws, the
      clock reading for that employee's file names, and the working
      directory. */
  datatype Generator = Generator(fails: (Employee, Option<Template>, Option<Template>) -> bool,
                                 stamp: Employee -> string, cwd: string)

  /** `generateAndSaveCards(employee, frontTemplate, backTemplate)` as the
      batch sees it: the files it saved, or nothing when it threw. */
  function Generate(g: Generator, e: Employee, front: Option<Template>, back: Option<Template>): (r: Option<CardFiles>)
    ensures r.Some? <==> !g.fails(e, front, back)
  {
    if g.fails(e, front, back) then None else Some(CardFilesFor(e.employeeId, g.stamp(e)))
  }

  /** The files are those `generateAndSaveCards` names, whichever templates
      are active. */
  lemma {:induction false} GenerateSavesTheGeneratorsFiles(g: Generator, e: Employee, front: Option<Template>, back: Option<Template>)
    ensures Generate(g, e, front, back).Some? <==> !g.fails(e, front, back)
    ensures Generate(g, e, front, back).Some? ==>
      Generate(g, e, front, back).value == GenerateAndSaveCards(e, front, back, g.cwd, g.stamp(e)).files
  {
    GeneratedCardShape(e, front, back, g.cwd, g.stamp(e));
  }

  /** The generator's outcome for each selected row. */
  function Renders(g: Generator, rows: seq<Employee>, sel: seq<nat>, front: Option<Template>, back: Option<Template>)
    : (outs: seq<Option<CardFiles>>)
    requires forall j :: 0 <= j < |sel| ==> sel[j] < |rows|
    ensures |outs| == |sel|
    ensures forall j :: 0 <= j < |sel| ==> outs[j] == Generate(g, rows[sel[j]], front, back)
  {
    seq(|sel|, j requires 0 <= j < |sel| => Generate(g, rows[sel[j]], front, back))
  }

  /** The `update` after a successful generation: the card is generated and
      its two public paths recorded. */
  function WithCard(e: Employee, files: CardFiles): (r: Employee)
    ensures r.id == e.id && r.employeeId == e.employeeId
  {
    e.(cardGenerated := true, cardFrontPath := Some(files.frontUrl), cardBackPath := Some(files.backUrl))
  }

  function FailedCardError(employeeId: string): string {
    FailedCardPrefix + employeeId
  }

  /** The table and the `results` object during the loop. */
  datatype BatchState = BatchState(rows: seq<Employee>, success: nat, failed: nat, errors: seq<string>)

  /** One iteration: on success the row at `k` is updated and `success`
      counted; on failure `failed` is counted and a message pushed. */
  function BatchStep(st: BatchState, k: nat, employeeId: string, out: Option<CardFiles>): BatchState
    requires k < |st.rows|
  {
    match out
    case Some(files) => st.(rows := st.rows[k := WithCard(st.rows[k], files)], success := st.success + 1)
    case None => st.(failed := st.failed + 1, errors := st.errors + [FailedCardError(employeeId)])
  }

  predicate InBounds(rows: seq<Employee>, sel: seq<nat>) {
    forall j :: 0 <= j < |sel| ==> sel[j] < |rows|
  }

  /** The state after the first `n` selected employees; `rows` is also the
      list `findMany` returned, which the loop walks. */
  function BatchUpTo(rows: seq<Employee>, sel: seq<nat>, outs: seq<Option<CardFiles>>, n: nat): (st: BatchState)
    requires n <= |sel| == |outs| && InBounds(rows, sel)
    ensures |st.rows| == |rows|
  {
    if n == 0 then BatchState(rows, 0, 0, [])
    else BatchStep(BatchUpTo(rows, sel, outs, n - 1), sel[n - 1], rows[sel[n - 1]].employeeId, outs[n - 1])
  }

  /** The messages of the failed employees among the first `n` selected,
      in selection order. */
  function FailureMessages(rows: seq<Employee>, sel: seq<nat>, outs: seq<Option<CardFiles>>, n: nat): (r: seq<string>)
    requires n <= |sel| == |outs| && InBounds(rows, sel)
    ensures |r| <= n
  {
    if n == 0 then []
    else
      FailureMessages(rows, sel, outs, n - 1)
        + (if outs[n - 1].None? then [FailedCardError(rows[sel[n - 1]].employeeId)] else [])
  }

  /** Every employee is counted once, as a success or a failure, and the
      messages are exactly those of the failed employees, in order: each
      names a failed employee, and each failed employee is named. */
  lemma {:induction false} BatchTallies(rows: seq<Employee>, sel: seq<nat>, outs: seq<Option<CardFiles>>, n: nat)
    requires n <= |sel| == |outs| && InBounds(rows, sel)
    ensures var st := BatchUpTo(rows, sel, outs, n);
      && st.success + st.failed == n
      && |st.errors| == st.failed
      && st.errors == FailureMessages(rows, sel, outs, n)
      && (forall i :: 0 <= i < |st.errors| ==> FailureMessage(rows, sel, outs, n, st.errors[i]))
      && (forall j :: 0 <= j < n && outs[j].None? ==> FailedCardError(rows[sel[j]].employeeId) in st.errors)
  {
    BatchCounts(rows, sel, outs, n);
    FailureMessagesSound(rows, sel, outs, n);
    FailureMessagesComplete(rows, sel, outs, n);
  }

  /** The counters and the message list of the fold. */
  lemma {:induction false} BatchCounts(rows: seq<Employee>, sel: seq<nat>, outs: seq<Option<CardFiles>>, n: nat)
    requires n <= |sel| == |outs| && InBounds(rows, sel)
    ensures var st := BatchUpTo(rows, sel, outs, n);
      && st.success + st.failed == n
      && |st.errors| == st.failed
      && st.errors == FailureMessages(rows, sel, outs, n)
  {
    if n > 0 {
      BatchCounts(rows, sel, outs, n - 1);
    }
  }

  /** Each message names a failed employee. */
  lemma {:induction false} FailureMessagesSound(rows: seq<Employee>, sel: seq<nat>, outs: seq<Option<CardFiles>>, n: nat)
    requires n <= |sel| == |outs| && InBounds(rows, sel)
    ensures forall i :: 0 <= i < |FailureMessages(rows, sel, outs, n)| ==>
      FailureMessage(rows, sel, outs, n, FailureMessages(rows, sel, outs, n)[i])
  {
    if n > 0 {
      FailureMessagesSound(rows, sel, outs, n - 1);
      var prev := FailureMessages(rows, sel, outs, n - 1);
      var msgs := FailureMessages(rows, sel, outs, n);
      forall i | 0 <= i < |msgs| ensures FailureMessage(rows, sel, outs, n, msgs[i]) {
        if i < |prev| {
          assert msgs[i] == prev[i];
          assert FailureMessage(rows, sel, outs, n - 1, prev[i]);
          var j :| 0 <= j < n - 1 && outs[j].None? && prev[i] == FailedCardError(rows[sel[j]].employeeId);
        } else {
          assert outs[n - 1].None? && msgs[i] == FailedCardError(rows[sel[n - 1]].employeeId);
        }
      }
    }
  }

  /** Each failed employee is named by a message. */
  lemma {:induction false} FailureMessagesComplete(rows: seq<Employee>, sel: seq<nat>, outs: seq<Option<CardFiles>>, n: nat)
    requires n <= |sel| == |outs| && InBounds(rows, sel)
    ensures forall j :: 0 <= j < n && outs[j].None? ==>
      FailedCardError(rows[sel[j]].employeeId) in FailureMessages(rows, sel, outs, n)
  {
    if n > 0 {
      FailureMessagesComplete(rows, sel, outs, n - 1);
      var prev := FailureMessages(rows, sel, outs, n - 1);
      var msgs := FailureMessages(rows, sel, outs, n);
      assert prev <= msgs;
      forall j | 0 <= j < n && outs[j].None? ensures FailedCardError(rows[sel[j]].employeeId) in msgs {
        if j < n - 1 {
          var i :| 0 <= i < |prev| && prev[i] == FailedCardError(rows[sel[j]].employeeId);
          assert msgs[i] == prev[i];
        } else {
          assert msgs[|msgs| - 1] == FailedCardError(rows[sel[j]].employeeId);
        }
      }
    }
  }

  /** `msg` is the message of one of the first `n` selected employees whose
      generation failed. */
  predicate FailureMessage(rows: seq<Employee>, sel: seq<nat>, outs: seq<Option<CardFiles>>, n: nat, msg: string)
    requires n <= |sel| == |outs| && InBounds(rows, sel)
  {
    exists j :: 0 <= j < n && outs[j].None? && msg == FailedCardError(rows[sel[j]].employeeId)
  }

  /** What the rows look like after the first `n` selected employees. */
  predicate RowsAfter(rows: seq<Employee>, sel: seq<nat>, outs: seq<Option<CardFiles>>, n: nat, cur: seq<Employee>)
    requires n <= |sel| == |outs| && InBounds(rows, sel)
  {
    && |cur| == |rows|
    && (forall k :: 0 <= k < |rows| && k !in sel[..n] ==> cur[k] == rows[k])
    && (forall j :: 0 <= j < n ==>
          cur[sel[j]] == match outs[j] case Some(f) => WithCard(rows[sel[j]], f) case None => rows[sel[j]])
  }

  /** Rows outside the selection are untouched, and each selected row is
      updated from its original exactly when its generation succeeded. */
  lemma {:induction false} BatchRows(rows: seq<Employee>, sel: seq<nat>, outs: seq<Option<CardFiles>>, n: nat)
    requires n <= |sel| == |outs| && InBounds(rows, sel)
    requires forall j, l :: 0 <= j < l < |sel| ==> sel[j] < sel[l]
    ensures RowsAfter(rows, sel, outs, n, BatchUpTo(rows, sel, outs, n).rows)
  {
    if n > 0 {
      BatchRows(rows, sel, outs, n - 1);
      var prev := BatchUpTo(rows, sel, outs, n - 1);
      var k := sel[n - 1];
      assert k !in sel[..n - 1];
      assert prev.rows[k] == rows[k];
      assert BatchUpTo(rows, sel, outs, n) == BatchStep(prev, k, rows[k].employeeId, outs[n - 1]);
      assert sel[..n] == sel[..n - 1] + [k];
    }
  }

  /** The loop never changes a row's keys. */
  lemma {:induction false} BatchKeepsKeys(rows: seq<Employee>, sel: seq<nat>, outs: seq<Option<CardFiles>>, n: nat)
    requires n <= |sel| == |outs| && InBounds(rows, sel)
    ensures var cur := BatchUpTo(rows, sel, outs, n).rows;
      forall k :: 0 <= k < |rows| ==> cur[k].id == rows[k].id && cur[k].employeeId == rows[k].employeeId
  {
    if n > 0 {
      BatchKeepsKeys(rows, sel, outs, n - 1);
    }
  }

  /** The answer: the tallies, or a 404 with its message. */
  datatype BatchResponse = Generated(success: nat, failed: nat, errors: seq<string>) | NotFound(error: string)

  /** The handler as a value of the tables before it: the answer and the
      employee rows afterwards. */
  function BatchOutcome(rows: seq<Employee>, templates: seq<Template>, ids: seq<nat>, g: Generator)
    : (r: (BatchResponse, seq<Employee>))
    ensures r.0.NotFound? <==> |Selection(rows, ids)| == 0
    ensures r.0.NotFound? ==> r == (NotFound(NoEmployeesError), rows)
  {
    var sel := Selection(rows, ids);
    if |sel| == 0 then (NotFound(NoEmployeesError), rows)
    else
      var front, back := FirstActive(templates, FrontKind), FirstActive(templates, BackKind);
      var outs := Renders(g, rows, sel, front, back);
      var st := BatchUpTo(rows, sel, outs, |sel|);
      (Generated(st.success, st.failed, st.errors), st.rows)
  }

  /** The messages name the failed selected employees: each message is
      that of a selected employee whose generation failed, and each such
      employee has its message. */
  predicate ErrorsNameFailures(rows: seq<Employee>, ids: seq<nat>, g: Generator, front: Option<Template>,
                               back: Option<Template>, errors: seq<string>)
  {
    && (forall i :: 0 <= i < |errors| ==> NamesFailedRow(rows, ids, g, front, back, errors[i]))
    && (forall k :: 0 <= k < |rows| && Selected(rows[k], ids) && Generate(g, rows[k], front, back).None? ==>
          FailedCardError(rows[k].employeeId) in errors)
  }

  /** `msg` is the message of a selected row whose generation failed. */
  predicate NamesFailedRow(rows: seq<Employee>, ids: seq<nat>, g: Generator, front: Option<Template>,
                           back: Option<Template>, msg: string)
  {
    exists k :: 0 <= k < |rows| && Selected(rows[k], ids) && Generate(g, rows[k], front, back).None?
                && msg == FailedCardError(rows[k].employeeId)
  }

  /** Messages that name exactly the failed positions of a selection name
      exactly the failed selected rows of the table. */
  lemma {:induction false} SelectionFailures(rows: seq<Employee>, ids: seq<nat>, g: Generator, front: Option<Template>,
                                             back: Option<Template>, sel: seq<nat>, outs: seq<Option<CardFiles>>, msgs: seq<string>)
    requires |outs| == |sel| && InBounds(rows, sel)
    requires forall j :: 0 <= j < |sel| ==> Selected(rows[sel[j]], ids)
    requires forall k :: 0 <= k < |rows| && Selected(rows[k], ids) ==> k in sel
    requires forall j :: 0 <= j < |sel| ==> outs[j] == Generate(g, rows[sel[j]], front, back)
    requires forall i :: 0 <= i < |msgs| ==> FailureMessage(rows, sel, outs, |sel|, msgs[i])
    requires forall j :: 0 <= j < |sel| && outs[j].None? ==> FailedCardError(rows[sel[j]].employeeId) in msgs
    ensures ErrorsNameFailures(rows, ids, g, front, back, msgs)
  {
    forall i | 0 <= i < |msgs| ensures NamesFailedRow(rows, ids, g, front, back, msgs[i]) {
      assert FailureMessage(rows, sel, outs, |sel|, msgs[i]);
      var j :| 0 <= j < |sel| && outs[j].None? && msgs[i] == FailedCardError(rows[sel[j]].employeeId);
      var k := sel[j];
      assert Selected(rows[k], ids) && Generate(g, rows[k], front, back).None?;
    }
    forall k | 0 <= k < |rows| && Selected(rows[k], ids) && Generate(g, rows[k], front, back).None?
      ensures FailedCardError(rows[k].employeeId) in msgs
    {
      var j :| 0 <= j < |sel| && sel[j] == k;
      assert outs[j].None?;
    }
  }

  /** The answer when something is selected: one count per selected
      employee, and messages that name exactly the failed ones. */
  lemma {:induction false} BatchAnswer(rows: seq<Employee>, templates: seq<Template>, ids: seq<nat>, g: Generator)
    ensures var resp := BatchOutcome(rows, templates, ids, g).0;
      var front, back := FirstActive(templates, FrontKind), FirstActive(templates, BackKind);
      resp.Generated? ==>
        && resp.success + resp.failed == |Selection(rows, ids)|
        && |resp.errors| == resp.failed
        && ErrorsNameFailures(rows, ids, g, front, back, resp.errors)
  {
    var sel := Selection(rows, ids);
    if |sel| > 0 {
      var front, back := FirstActive(templates, FrontKind), FirstActive(templates, BackKind);
      var outs := Renders(g, rows, sel, front, back);
      BatchTallies(rows, sel, outs, |sel|);
      SelectionFailures(rows, ids, g, front, back, sel, outs, BatchUpTo(rows, sel, outs, |sel|).errors);
    }
  }

  /** The table after the batch: unselected rows untouched, each selected
      row carrying its generated card exactly when generation with the
      active templates succeeded, and the keys intact. */
  lemma {:induction false} BatchTable(rows: seq<Employee>, templates: seq<Template>, ids: seq<nat>, g: Generator, nextId: nat)
    ensures var after := BatchOutcome(rows, templates, ids, g).1;
      var front, back := FirstActive(templates, FrontKind), FirstActive(templates, BackKind);
      && |after| == |rows|
      && (forall k :: 0 <= k < |rows| && !Selected(rows[k], ids) ==> after[k] == rows[k])
      && (forall k :: 0 <= k < |rows| && Selected(rows[k], ids) ==>
            after[k] == match Generate(g, rows[k], front, back) case Some(f) => WithCard(rows[k], f) case None => rows[k])
      && (WellKeyed(rows, nextId) ==> WellKeyed(after, nextId))
  {
    var sel := Selection(rows, ids);
    var after := BatchOutcome(rows, templates, ids, g).1;
    if |sel| > 0 {
      var front, back := FirstActive(templates, FrontKind), FirstActive(templates, BackKind);
      var outs := Renders(g, rows, sel, front, back);
      BatchRows(rows, sel, outs, |sel|);
      assert sel[..|sel|] == sel;
      forall k | 0 <= k < |rows| && Selected(rows[k], ids)
        ensures after[k] == match Generate(g, rows[k], front, back) case Some(f) => WithCard(rows[k], f) case None => rows[k]
      {
        var j :| 0 <= j < |sel| && sel[j] == k;
        assert outs[j] == Generate(g, rows[k], front, back);
      }
      BatchKeepsKeys(rows, sel, outs, |sel|);
      SameKeysKeepWellKeyed(rows, after, nextId);
    }
  }

  /** The whole batch: a 404 exactly when nothing is selected, and then no
      change; otherwise one count per selected employee, one message per
      failure and one failure per message, rows outside the selection
      untouched, each selected row carrying its generated card exactly when
      generation with the active templates succeeded, and the keys of the
      table intact. */
  lemma {:induction false} BatchOutcomeSummary(rows: seq<Employee>, templates: seq<Template>, ids: seq<nat>, g: Generator, nextId: nat)
    ensures var (resp, after) := BatchOutcome(rows, templates, ids, g);
      var front, back := FirstActive(templates, FrontKind), FirstActive(templates, BackKind);
      && (resp.NotFound? <==> forall k :: 0 <= k < |rows| ==> !Selected(rows[k], ids))
      && (resp.NotFound? ==> resp.error == NoEmployeesError && after == rows)
      && (resp.Generated? ==>
            && resp.success + resp.failed == |Selection(rows, ids)|
            && |resp.errors| == resp.failed
            && ErrorsNameFailures(rows, ids, g, front, back, resp.errors))
      && |after| == |rows|
      && (forall k :: 0 <= k < |rows| && !Selected(rows[k], ids) ==> after[k] == rows[k])
      && (forall k :: 0 <= k < |rows| && Selected(rows[k], ids) ==>
            after[k] == match Generate(g, rows[k], front, back) case Some(f) => WithCard(rows[k], f) case None => rows[k])
      && (WellKeyed(rows, nextId) ==> WellKeyed(after, nextId))
  {
    BatchAnswer(rows, templates, ids, g);
    BatchTable(rows, templates, ids, g, nextId);
    if |Selection(rows, ids)| == 0 {
      assert rows != [] ==> rows[0] in rows;
    }
  }

  /** Rewriting rows without touching their keys keeps the table well keyed. */
  lemma {:induction false} SameKeysKeepWellKeyed(rows: seq<Employee>, after: seq<Employee>, nextId: nat)
    requires |after| == |rows|
    requires forall k :: 0 <= k < |rows| ==> after[k].id == rows[k].id && after[k].employeeId == rows[k].employeeId
    ensures WellKeyed(rows, nextId) ==> WellKeyed(after, nextId)
  {
    assert EmployeeIds(after) == EmployeeIds(rows);
  }

  /** The handler against the tables: select, give up with a 404 when
      nothing is selected, look up the templates, and generate. */
  method GenerateBatch(db: EmployeeTable, templates: seq<Template>, ids: seq<nat>, g: Generator)
    returns (resp: BatchResponse)
    requires db.Valid()
    modifies db
    ensures db.Valid() && db.nextId == old(db.nextId)
    ensures (resp, db.rows) == BatchOutcome(old(db.rows), templates, ids, g)
  {
    var employees := db.rows;
    var sel := Selection(employees, ids);
    if |sel| == 0 {
      return NotFound(NoEmployeesError);
    }
    var front := FirstActive(templates, FrontKind);
    var back := FirstActive(templates, BackKind);
    var outs := Renders(g, employees, sel, front, back);
    var success, failed, errors := GenerateAll(db, employees, sel, outs);
    resp := Generated(success, failed, errors);
  }

  /** The loop over the employees `findMany` returned: update on success,
      count and record the message on failure. */
  method GenerateAll(db: EmployeeTable, employees: seq<Employee>, sel: seq<nat>, outs: seq<Option<CardFiles>>)
    returns (success: nat, failed: nat, errors: seq<string>)
    requires db.Valid() && db.rows == employees
    requires |sel| == |outs| && InBounds(employees, sel)
    modifies db
    ensures db.Valid() && db.nextId == old(db.nextId)
    ensures BatchUpTo(employees, sel, outs, |sel|) == BatchState(db.rows, success, failed, errors)
  {
    success, failed, errors := 0, 0, [];
    var j := 0;
    while j < |sel|
      invariant 0 <= j <= |sel|
      invariant db.Valid() && db.nextId == old(db.nextId)
      invariant BatchUpTo(employees, sel, outs, j) == BatchState(db.rows, success, failed, errors)
    {
      var k := sel[j];
      match outs[j] {
        case Some(files) =>
          db.Update(k, WithCard(db.rows[k], files));
          success := success + 1;
        case None =>
          failed := failed + 1;
          errors := errors + [FailedCardError(employees[k].employeeId)];
      }
      j := j + 1;
    }
  }
}
