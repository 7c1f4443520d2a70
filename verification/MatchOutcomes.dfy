/**
 How lancedb_json_matches ends, said of the engine's own answers: what it reports, in the order in which things
 can go wrong, and what it writes.
 */
module MatchOutcomes {
  import opened Basics
  import opened Exprs
  import opened Objects
  import opened Messages
  import opened Errors
  import opened ExprApi
  import opened JsonMatches
  import opened Calls

  /** A call whose arguments are all there, as the program made it, on the batches in `cells`. */
  ghost predicate Presented(view: View, call: QueryCall, cells: seq<SlotObj>) {
    && call.Matches? && call.hasSchema && call.hasResults && call.hasCount && call.rows > 0
    && ExprArg(view, call.expr) && call.expr != NULL
    && call.arrays != NULL && call.arrays in view && view[call.arrays].ArrayObj?
    && call.rows <= |view[call.arrays].slots|
    && cells == view[call.arrays].slots[..call.rows] && BatchCells(cells)
  }

  /** The schema can be imported and the expression planned. */
  predicate Planned(engine: Engine, e: Expr) {
    engine.schemaError.None? && engine.dfSchemaError.None? && engine.planError(e).None?
  }

  /** The rows of all batches can be counted. */
  predicate Counted(cells: seq<SlotObj>) {
    && (forall i :: 0 <= i < |cells| ==> cells[i].Is? && cells[i].obj.ArrowObj? && cells[i].obj.length >= 0)
    && Sum(Lengths(cells)) <= 0xFFFF_FFFF_FFFF_FFFF
  }

  /** The batch can be imported, and the expression is a condition on it. */
  predicate Answers(engine: Engine, e: Expr, b: Batch) {
    engine.importError(b).None? && (engine.evaluate(e, b).BoolColumn? || engine.evaluate(e, b).BoolScalar?)
  }

  /** What is reported for a batch that gives no answer. */
  predicate Blamed(engine: Engine, e: Expr, b: Batch, code: ErrorCode, text: string) {
    if engine.importError(b).Some? then code == ErrorCode.Arrow && text == engine.importError(b).value
    else
      match engine.evaluate(e, b)
      case EvalError(t) => code == ErrorCode.Other && text == t
      case BroadcastError(t) => code == ErrorCode.Other && text == t
      case OtherType(name) =>
        code == ErrorCode.InvalidArgument && text == "Expression must produce Boolean, got " + name
      case _ => false
  }

  /** The answer for row `j` of a batch: that of its cell, or of the scalar; NULL is no match. */
  predicate AnswersTrue(engine: Engine, e: Expr, b: Batch, j: nat)
    requires Answers(engine, e, b) && j < |b.rows|
  {
    match engine.evaluate(e, b)
    case BoolColumn(cells) => cells[j] == Some(true)
    case BoolScalar(cell) => cell == Some(true)
    case _ => false
  }

  lemma AnswersAreEvaluated(engine: Engine, e: Expr, b: Batch)
    ensures Evaluated(engine, e, b).Cells? <==> Answers(engine, e, b)
    ensures Answers(engine, e, b) ==>
              && |Evaluated(engine, e, b).cells| == |b.rows|
              && forall j :: 0 <= j < |b.rows| ==>
                   (Evaluated(engine, e, b).cells[j] == Some(true) <==> AnswersTrue(engine, e, b, j))
    ensures forall code, text :: Evaluated(engine, e, b) == Failed(code, text) <==> Blamed(engine, e, b, code, text)
  {
  }

  lemma AllAnswer(engine: Engine, e: Expr, cells: seq<SlotObj>)
    requires AllCountable(cells)
    ensures AllEvaluateOk(engine, e, cells) <==>
              forall i :: 0 <= i < |cells| ==> Answers(engine, e, cells[i].obj.batch)
  {
    hide Evaluated, Answers;
    forall i | 0 <= i < |cells| ensures EvaluatesOk(engine, e, cells[i]) <==> Answers(engine, e, cells[i].obj.batch) {
      AnswersAreEvaluated(engine, e, cells[i].obj.batch);
    }
  }

  /** Before any batch is counted: a schema that cannot be imported or used, and an expression that has no plan. */
  lemma PlanningIsReported(view: View, call: QueryCall, engine: Engine, view': View, m: MatchesReply,
                           cells: seq<SlotObj>)
    requires Presented(view, call, cells) && MatchesStep(view, call, engine, view', m)
    ensures var e := ExprAt(view, call.expr);
            if engine.schemaError.Some? then m.code == ErrorCode.Arrow && m.text == engine.schemaError.value
            else if engine.dfSchemaError.Some? then m.code == ErrorCode.Other && m.text == engine.dfSchemaError.value
            else engine.planError(e).Some? ==> m.code == ErrorCode.Other && m.text == engine.planError(e).value
  {
    hide BatchCells, Flat, TotalFits, FirstFailure, Spoiled;
  }

  /** Then the first batch that is NULL, has a negative length or makes the total overflow. */
  lemma CountingIsReported(view: View, call: QueryCall, engine: Engine, view': View, m: MatchesReply,
                           cells: seq<SlotObj>, i: nat)
    requires Presented(view, call, cells) && MatchesStep(view, call, engine, view', m)
    requires Planned(engine, ExprAt(view, call.expr)) && i < |cells| && Counted(cells[..i]) && !Counted(cells[..i + 1])
    ensures m.code == ErrorCode.InvalidArgument
    ensures m.text == if cells[i] == NullObj then "Null array pointer in batch"
                      else if cells[i].obj.length < 0 then "Invalid array length in batch"
                      else "Total row count overflow"
  {
    hide Flat, FirstFailure, Lengths, Sum, BatchCells;
    assert cells[i] == NullObj || (cells[i].Is? && cells[i].obj.ArrowObj?) by {
      CellsAreBatches(cells, i);
    }
    SpoiledExactlyAt(cells, i);
    NotCounted(cells, i);
    var e := ExprAt(view, call.expr);
    FailsOneWay(engine, e, cells, call.grant, m.code, m.text, ErrorCode.InvalidArgument,
                if cells[i] == NullObj then NULL_ARRAY
                else if cells[i].obj.length < 0 then BAD_LENGTH else TOO_MANY_ROWS);
  }

  lemma CellsAreBatches(cells: seq<SlotObj>, i: nat)
    requires BatchCells(cells) && i < |cells|
    ensures cells[i] == NullObj || (cells[i].Is? && cells[i].obj.ArrowObj?)
  {
  }

  lemma SpoiledExactlyAt(cells: seq<SlotObj>, i: nat)
    requires i < |cells| && Counted(cells[..i]) && !Counted(cells[..i + 1])
    requires cells[i] == NullObj || (cells[i].Is? && cells[i].obj.ArrowObj?)
    ensures Spoiled(cells, if cells[i] == NullObj then NULL_ARRAY
                           else if cells[i].obj.length < 0 then BAD_LENGTH else TOO_MANY_ROWS)
  {
    hide Lengths, Sum;
    var text := if cells[i] == NullObj then NULL_ARRAY
                else if cells[i].obj.length < 0 then BAD_LENGTH else TOO_MANY_ROWS;
    assert cells[..i + 1][..i] == cells[..i] && cells[..i + 1][i] == cells[i];
    if Countable(cells[i]) {
      assert AllCountable(cells[..i + 1]);
      assert cells[..i + 1][..i + 1] == cells[..i + 1];
      LengthsNext(cells[..i + 1], i);
    }
    assert SpoiledAt(cells, i, text);
  }

  lemma NotCounted(cells: seq<SlotObj>, i: nat)
    requires i < |cells| && Counted(cells[..i]) && !Counted(cells[..i + 1])
    ensures !TotalFits(cells)
  {
    hide Lengths, Sum;
    if TotalFits(cells) {
      assert forall k :: 0 <= k <= i ==> cells[..i + 1][k] == cells[k] && Countable(cells[k]);
      LengthsNext(cells, i);
    }
  }

  /** A count of zero needs no buffer; otherwise malloc must grant one. */
  lemma NoRowsAndNoMemory(view: View, call: QueryCall, engine: Engine, view': View, m: MatchesReply,
                          cells: seq<SlotObj>)
    requires Presented(view, call, cells) && MatchesStep(view, call, engine, view', m)
    requires Planned(engine, ExprAt(view, call.expr)) && Counted(cells)
    ensures Sum(Lengths(cells)) == 0 ==>
              m == MatchesReply(ErrorCode.Success, Some(NULL), Some(0), None, m.text) && view' == view - {call.expr}
    ensures Sum(Lengths(cells)) > 0 && !call.grant ==>
              m.code == ErrorCode.Other && m.text == "Failed to allocate results array"
  {
    hide Flat, FirstFailure, Lengths, Sum, AllEvaluateOk, Spoiled;
  }

  /** With rows and memory, success is up to the engine: it must answer for every batch. */
  lemma SuccessIsAnAnswerForEveryBatch(view: View, call: QueryCall, engine: Engine, view': View, m: MatchesReply,
                                       cells: seq<SlotObj>)
    requires Presented(view, call, cells) && MatchesStep(view, call, engine, view', m)
    requires Planned(engine, ExprAt(view, call.expr)) && Counted(cells) && Sum(Lengths(cells)) > 0 && call.grant
    ensures m.code.Success? <==>
              forall i :: 0 <= i < |cells| ==> Answers(engine, ExprAt(view, call.expr), cells[i].obj.batch)
  {
    hide Flat, FirstFailure, Lengths, Sum, AllEvaluateOk, Spoiled, Answers;
    AllAnswer(engine, ExprAt(view, call.expr), cells);
  }

  /** The first batch without an answer decides the code and the text. */
  lemma TheFirstBatchWithoutAnAnswerIsBlamed(view: View, call: QueryCall, engine: Engine, view': View,
                                             m: MatchesReply, cells: seq<SlotObj>, i: nat)
    requires Presented(view, call, cells) && MatchesStep(view, call, engine, view', m)
    requires Planned(engine, ExprAt(view, call.expr)) && Counted(cells) && Sum(Lengths(cells)) > 0 && call.grant
    requires i < |cells| && !Answers(engine, ExprAt(view, call.expr), cells[i].obj.batch)
    requires forall k :: 0 <= k < i ==> Answers(engine, ExprAt(view, call.expr), cells[k].obj.batch)
    ensures Blamed(engine, ExprAt(view, call.expr), cells[i].obj.batch, m.code, m.text)
  {
    hide Flat, Lengths, Sum, Spoiled, Answers, Blamed, Evaluated, AllEvaluateOk, FirstFailure, BatchCells;
    var e := ExprAt(view, call.expr);
    SuccessIsAnAnswerForEveryBatch(view, call, engine, view', m, cells);
    FailureIsBlamed(engine, e, cells, i, m.code, m.text);
  }

  lemma FailureIsBlamed(engine: Engine, e: Expr, cells: seq<SlotObj>, i: nat, code: ErrorCode, text: string)
    requires AllCountable(cells) && FirstFailure(engine, e, cells, code, text)
    requires i < |cells| && !Answers(engine, e, cells[i].obj.batch)
    requires forall k :: 0 <= k < i ==> Answers(engine, e, cells[k].obj.batch)
    ensures Blamed(engine, e, cells[i].obj.batch, code, text)
  {
    hide Answers, Blamed, Evaluated;
    var j :| 0 <= j < |cells| && Countable(cells[j]) && AllEvaluateOk(engine, e, cells[..j])
      && Evaluated(engine, e, cells[j].obj.batch) == Failed(code, text);
    AnswersAreEvaluated(engine, e, cells[i].obj.batch);
    AnswersAreEvaluated(engine, e, cells[j].obj.batch);
    assert i < j ==> EvaluatesOk(engine, e, cells[..j][i]);
  }

  /**
   The flags of a success: row `j` of batch `i` has its flag after those of all earlier batches, and the flag is
   what the engine answered for that row.
   */
  lemma FlagsAreTheAnswers(view: View, call: QueryCall, engine: Engine, view': View, m: MatchesReply,
                           cells: seq<SlotObj>, i: nat, j: nat)
    requires Presented(view, call, cells) && MatchesStep(view, call, engine, view', m) && m.code.Success?
    requires Counted(cells) && i < |cells| && j < |cells[i].obj.batch.rows|
    ensures Answers(engine, ExprAt(view, call.expr), cells[i].obj.batch)
    ensures m.count == Some(Sum(Lengths(cells))) && m.results.Some? && m.results.value in view'
    ensures view'[m.results.value].LeafObj? && view'[m.results.value].leaf.BoolBuffer?
    ensures var flags, at := view'[m.results.value].leaf.cells, Sum(Lengths(cells[..i])) + j;
            && |flags| == Sum(Lengths(cells)) && at < |flags|
            && flags[at] == Some(AnswersTrue(engine, ExprAt(view, call.expr), cells[i].obj.batch, j))
  {
    hide Lengths, Sum, Spoiled, Answers, AnswersTrue, Evaluated, Flat, FirstFailure;
    var e := ExprAt(view, call.expr);
    SomeRows(cells, i);
    AllAnswer(engine, e, cells);
    AnswersAreEvaluated(engine, e, cells[i].obj.batch);
    FlatAt(engine, e, cells, i, j);
  }

  lemma SomeRows(cells: seq<SlotObj>, i: nat)
    requires BatchCells(cells) && AllCountable(cells) && i < |cells| && |cells[i].obj.batch.rows| > 0
    ensures Sum(Lengths(cells)) > 0
  {
    hide Sum, Lengths;
    LengthsNext(cells, i);
  }
}
