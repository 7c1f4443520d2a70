/** lancedb_json_matches (src/json.rs): evaluates a filter on borrowed batches into one flat array of flags. */
module JsonMatches {
  import opened Basics
  import opened Exprs
  import opened Objects
  import opened Memory
  import opened HeapModel
  import opened Messages
  import opened Errors
  import opened ExprApi

  /** What evaluating the expression on one batch yields: a column, a scalar for all rows, or an error. */
  datatype Columnar =
    | BoolColumn(cells: seq<Option<bool>>)
    | BoolScalar(cell: Option<bool>)
    | OtherType(name: string)
    | EvalError(text: string)
    | BroadcastError(text: string)

  /** The Arrow and DataFusion calls: which of them fail, and what evaluation yields. */
  datatype EngineCalls = EngineCalls(
    schemaError: Option<string>,
    dfSchemaError: Option<string>,
    planError: Expr -> Option<string>,
    importError: Batch -> Option<string>,
    evaluate: (Expr, Batch) -> Columnar)

  /** A column has one cell for each row of its batch. */
  ghost predicate Sane(engine: EngineCalls) {
    forall e, b :: engine.evaluate(e, b).BoolColumn? ==> |engine.evaluate(e, b).cells| == |b.rows|
  }

  /** What the library promises of every engine. */
  type Engine = engine: EngineCalls | Sane(engine) ghost witness BROKEN_ENGINE

  const BROKEN_ENGINE :=
    EngineCalls(None, None, (e: Expr) => None, (b: Batch) => None, (e: Expr, b: Batch) => EvalError(""))

  /** A NULL result counts as no match. */
  function Collapse(cell: Option<bool>): bool {
    cell == Some(true)
  }

  /** Evaluation of one batch, as far as the caller can tell. */
  datatype Outcome = Failed(code: ErrorCode, text: string) | Cells(cells: seq<Option<bool>>)

  function Evaluated(engine: Engine, e: Expr, batch: Batch): Outcome {
    if engine.importError(batch).Some? then Failed(ErrorCode.Arrow, engine.importError(batch).value)
    else
      match engine.evaluate(e, batch)
      case BoolColumn(cells) => Cells(cells)
      case BoolScalar(cell) => Cells(seq(|batch.rows|, i => cell))
      case OtherType(name) => Failed(ErrorCode.InvalidArgument, "Expression must produce Boolean, got " + name)
      case EvalError(text) => Failed(ErrorCode.Other, text)
      case BroadcastError(text) => Failed(ErrorCode.Other, text)
  }

  /* ---------- borrowing ---------- */

  /** A bitwise copy of an Arrow array struct. Dropping it releases the buffers if `release` is set. */
  datatype ArrowCopy = ArrowCopy(data: Ptr, release: bool)

  /** non_owning_import: the copy forgets the release callback, so the buffers stay with the caller. */
  method NonOwningImport(h: Heap, arr: Ptr, engine: Engine) returns (r: Result<(ArrowCopy, Batch), string>)
    requires h.Valid() && arr in h.obj && h.obj[arr].ArrowObj?
    ensures var batch := h.obj[arr].batch;
            if engine.importError(batch).Some? then r == Err(engine.importError(batch).value)
            else r.Ok? && r.value.1 == batch && !r.value.0.release && r.value.0.data in h.obj
  {
    var length, data := h.ReadArrow(arr);
    var raw := ArrowCopy(data, true);
    raw := raw.(release := false);
    var leaf := h.ReadLeaf(raw.data);
    var failure := engine.importError(leaf.batch);
    r := if failure.Some? then Err(failure.value) else Ok((raw, leaf.batch));
  }

  /** Drops an imported copy. With a release callback this would free the buffers. */
  method DropCopy(h: Heap, copy: ArrowCopy)
    requires h.Valid()
    requires copy.release ==> copy.data in h.View() && HomeOfObject(h.View()[copy.data]) == InBox
    modifies h
    ensures h.Valid()
    ensures !copy.release ==> h.View() == old(h.View()) && h.Temps() == old(h.Temps()) && h.blocks == old(h.blocks)
  {
    hide Forest, Held, StackBlocks, Felled, TreeDropped;
    if copy.release {
      h.DropValue(copy.data);
    }
  }

  method EvaluateBatch(h: Heap, arr: Ptr, e: Expr, engine: Engine) returns (r: Outcome)
    requires h.Valid() && arr in h.obj && h.obj[arr].ArrowObj?
    modifies h
    ensures h.Valid() && h.View() == old(h.View()) && h.Temps() == old(h.Temps()) && h.blocks == old(h.blocks)
    ensures r == Evaluated(engine, e, old(h.obj)[arr].batch)
  {
    hide Forest, Held, StackBlocks;
    var imported := NonOwningImport(h, arr, engine);
    if imported.Err? {
      return Failed(ErrorCode.Arrow, imported.error);
    }
    var (copy, batch) := imported.value;
    match engine.evaluate(e, batch)
    case BoolColumn(cells) => r := Cells(cells);
    case BoolScalar(cell) => r := Cells(seq(|batch.rows|, i => cell));
    case OtherType(name) => r := Failed(ErrorCode.InvalidArgument, "Expression must produce Boolean, got " + name);
    case EvalError(text) => r := Failed(ErrorCode.Other, text);
    case BroadcastError(text) => r := Failed(ErrorCode.Other, text);
    DropCopy(h, copy);
  }

  /* ---------- counting rows ---------- */

  /** The caller's array of batches: each cell is NULL or an Arrow array whose length counts its rows. */
  predicate BatchCells(cells: seq<SlotObj>) {
    forall i :: 0 <= i < |cells| ==>
      || cells[i] == NullObj
      || (cells[i].Is? && cells[i].obj.ArrowObj?
          && (cells[i].obj.length >= 0 ==> cells[i].obj.length as int == |cells[i].obj.batch.rows|))
  }

  predicate Countable(cell: SlotObj) {
    cell.Is? && cell.obj.ArrowObj? && cell.obj.length >= 0
  }

  predicate AllCountable(cells: seq<SlotObj>) {
    forall i :: 0 <= i < |cells| ==> Countable(cells[i])
  }

  function Lengths(cells: seq<SlotObj>): (ns: seq<nat>)
    requires AllCountable(cells)
    ensures |ns| == |cells| && forall i :: 0 <= i < |cells| ==> ns[i] == cells[i].obj.length as int
  {
    seq(|cells|, i requires 0 <= i < |cells| => cells[i].obj.length as int)
  }

  /** The first pass adds up the lengths without overflowing `usize`. */
  predicate TotalFits(cells: seq<SlotObj>) {
    AllCountable(cells) && Sum(Lengths(cells)) <= USIZE_MAX
  }

  const NULL_ARRAY := "Null array pointer in batch"
  const BAD_LENGTH := "Invalid array length in batch"
  const TOO_MANY_ROWS := "Total row count overflow"
  const NO_MEMORY := "Failed to allocate results array"

  /** The arrays before `i` can be counted, and `i` is the first that cannot be added. */
  ghost predicate SpoiledAt(cells: seq<SlotObj>, i: nat, text: string)
    requires i < |cells|
  {
    && AllCountable(cells[..i]) && Sum(Lengths(cells[..i])) <= USIZE_MAX
    && if cells[i].NullObj? then text == NULL_ARRAY
       else if !Countable(cells[i]) then text == BAD_LENGTH
       else Sum(Lengths(cells[..i])) + cells[i].obj.length as int > USIZE_MAX && text == TOO_MANY_ROWS
  }

  ghost predicate Spoiled(cells: seq<SlotObj>, text: string) {
    exists i :: 0 <= i < |cells| && SpoiledAt(cells, i, text)
  }

  /** The first pass: the exact number of rows, or the message of the first array that spoils it. */
  method CountRows(h: Heap, arrays: Ptr, count: nat) returns (r: Result<nat, string>)
    requires h.Valid() && arrays in h.View() && h.View()[arrays].ArrayObj? && count <= |h.View()[arrays].slots|
    requires BatchCells(h.View()[arrays].slots[..count])
    ensures r.Ok? <==> TotalFits(h.View()[arrays].slots[..count])
    ensures r.Ok? ==> r.value == Sum(Lengths(h.View()[arrays].slots[..count]))
    ensures r.Err? ==> Spoiled(h.View()[arrays].slots[..count], r.error)
  {
    hide Forest, Held, StackBlocks;
    h.HeldAreLive();
    ghost var cells := h.View()[arrays].slots[..count];
    var total, i := 0, 0;
    while i < count
      invariant i <= count && AllCountable(cells[..i]) && total == Sum(Lengths(cells[..i])) <= USIZE_MAX
    {
      assert cells[i] == h.View()[arrays].slots[i];
      var arr := h.ReadCell(arrays, i);
      if arr == NULL {
        assert SpoiledAt(cells, i, NULL_ARRAY);
        return Err(NULL_ARRAY);
      }
      var length, data := h.ReadArrow(arr);
      if length < 0 {
        assert SpoiledAt(cells, i, BAD_LENGTH);
        return Err(BAD_LENGTH);
      }
      LengthsNext(cells, i);
      if total + length as int > USIZE_MAX {
        assert SpoiledAt(cells, i, TOO_MANY_ROWS);
        return Err(TOO_MANY_ROWS);
      }
      total := total + length as int;
      i := i + 1;
    }
    assert cells[..i] == cells;
    r := Ok(total);
  }

  lemma LengthsNext(cells: seq<SlotObj>, i: nat)
    requires i < |cells| && AllCountable(cells[..i]) && Countable(cells[i])
    ensures AllCountable(cells[..i + 1])
    ensures Sum(Lengths(cells[..i + 1])) == Sum(Lengths(cells[..i])) + cells[i].obj.length as int
    ensures AllCountable(cells) ==> Sum(Lengths(cells[..i + 1])) <= Sum(Lengths(cells))
  {
    var ns := Lengths(cells[..i + 1]);
    assert ns[..i] == Lengths(cells[..i]);
    if AllCountable(cells) {
      assert Lengths(cells)[..i + 1] == ns;
      SumPrefixAtMost(Lengths(cells), i + 1);
    }
  }

  /* ---------- filling the buffer ---------- */

  function Collapsed(cells: seq<Option<bool>>): (flags: seq<bool>)
    ensures |flags| == |cells| && forall j :: 0 <= j < |cells| ==> flags[j] == Collapse(cells[j])
  {
    seq(|cells|, j requires 0 <= j < |cells| => Collapse(cells[j]))
  }

  /** The results of one batch; empty when evaluation fails. */
  function BatchFlags(engine: Engine, e: Expr, cell: SlotObj): seq<bool>
    requires Countable(cell)
  {
    match Evaluated(engine, e, cell.obj.batch)
    case Failed(_, _) => []
    case Cells(cells) => Collapsed(cells)
  }

  predicate EvaluatesOk(engine: Engine, e: Expr, cell: SlotObj) {
    Countable(cell) && Evaluated(engine, e, cell.obj.batch).Cells?
  }

  predicate AllEvaluateOk(engine: Engine, e: Expr, cells: seq<SlotObj>) {
    forall i :: 0 <= i < |cells| ==> EvaluatesOk(engine, e, cells[i])
  }

  /** The results of all batches, one after the other. */
  function Flat(engine: Engine, e: Expr, cells: seq<SlotObj>): seq<bool>
    requires AllCountable(cells)
  {
    if cells == [] then [] else Flat(engine, e, cells[..|cells| - 1]) + BatchFlags(engine, e, cells[|cells| - 1])
  }

  /** A result buffer whose first entries have been written. */
  function Buffer(total: nat, flags: seq<bool>): (cells: seq<Option<bool>>)
    ensures |cells| == total
    ensures forall k :: 0 <= k < total ==> cells[k] == if k < |flags| then Some(flags[k]) else None
  {
    seq(total, k requires 0 <= k < total => if k < |flags| then Some(flags[k]) else None)
  }

  /** `*out.add(k) = flag`: the index must lie inside the allocation. */
  method WriteFlag(h: Heap, out: Ptr, k: nat, flag: bool)
    requires h.Valid() && out in h.View() && out !in h.Temps()
    requires h.View()[out].LeafObj? && h.View()[out].leaf.BoolBuffer? && k < |h.View()[out].leaf.cells|
    modifies h
    ensures h.Valid() && h.Temps() == old(h.Temps())
    ensures h.View() == old(h.View())[out := LeafObj(BoolBuffer(old(h.View())[out].leaf.cells[k := Some(flag)]))]
  {
    hide Forest, Held, StackBlocks;
    h.HeldAreLive();
    var leaf := h.ReadLeaf(out);
    h.StoreLeaf(out, BoolBuffer(leaf.cells[k := Some(flag)]));
  }

  /** The inner loop: writes the flags of one batch from `offset` on. */
  method FillBatch(h: Heap, out: Ptr, offset: nat, cells: seq<Option<bool>>, ghost total: nat, ghost flags: seq<bool>)
    requires h.Valid() && out in h.View() && out !in h.Temps()
    requires h.View()[out] == LeafObj(BoolBuffer(Buffer(total, flags))) && offset == |flags|
              && offset + |cells| <= total
    modifies h
    ensures h.Valid() && h.Temps() == old(h.Temps())
    ensures h.View() == old(h.View())[out := LeafObj(BoolBuffer(Buffer(total, flags + Collapsed(cells))))]
  {
    hide Forest, Held, StackBlocks;
    ghost var view0 := h.View();
    var j := 0;
    assert flags + Collapsed(cells[..0]) == flags;
    while j < |cells|
      invariant j <= |cells|
      invariant h.Valid() && h.Temps() == old(h.Temps())
      invariant h.View() == view0[out := LeafObj(BoolBuffer(Buffer(total, flags + Collapsed(cells[..j]))))]
    {
      WriteFlag(h, out, offset + j, cells[j].Some? && cells[j].value);
      assert Buffer(total, flags + Collapsed(cells[..j]))[offset + j := Some(Collapse(cells[j]))]
          == Buffer(total, flags + Collapsed(cells[..j + 1]));
      j := j + 1;
    }
    assert cells[..j] == cells;
  }

  lemma FlatNext(engine: Engine, e: Expr, cells: seq<SlotObj>, i: nat)
    requires i < |cells| && AllCountable(cells)
    ensures Flat(engine, e, cells[..i + 1]) == Flat(engine, e, cells[..i]) + BatchFlags(engine, e, cells[i])
  {
    assert cells[..i + 1][..i] == cells[..i];
  }

  lemma BatchFlagsLength(engine: Engine, e: Expr, cell: SlotObj)
    requires BatchCells([cell]) && EvaluatesOk(engine, e, cell)
    ensures |BatchFlags(engine, e, cell)| == cell.obj.length as int
    ensures |Evaluated(engine, e, cell.obj.batch).cells| == cell.obj.length as int
  {
    assert [cell][0] == cell;
  }

  lemma {:induction false} FlatLength(engine: Engine, e: Expr, cells: seq<SlotObj>)
    requires BatchCells(cells) && AllEvaluateOk(engine, e, cells) && AllCountable(cells)
    ensures |Flat(engine, e, cells)| == Sum(Lengths(cells))
  {
    if cells != [] {
      var n := |cells| - 1;
      FlatLength(engine, e, cells[..n]);
      LengthsNext(cells, n);
      assert cells[..n + 1] == cells;
      BatchFlagsLength(engine, e, cells[n]);
    }
  }

  /**
   Flattening is correct: the flag of row j of batch i stands at the number of rows of the earlier
   batches plus j, and says whether the expression is true there.
   */
  lemma {:induction false} FlatAt(engine: Engine, e: Expr, cells: seq<SlotObj>, i: nat, j: nat)
    requires BatchCells(cells) && AllEvaluateOk(engine, e, cells) && AllCountable(cells)
    requires i < |cells| && j < |cells[i].obj.batch.rows|
    ensures j < |Evaluated(engine, e, cells[i].obj.batch).cells|
    ensures var at := Sum(Lengths(cells[..i])) + j;
            && at < |Flat(engine, e, cells)|
            && (Flat(engine, e, cells)[at] <==> Evaluated(engine, e, cells[i].obj.batch).cells[j] == Some(true))
    decreases |cells|
  {
    hide Evaluated, Sum, Lengths;
    var n := |cells| - 1;
    BatchFlagsLength(engine, e, cells[i]);
    if i < n {
      assert cells[..n][..i] == cells[..i];
      FlatAt(engine, e, cells[..n], i, j);
    } else {
      FlatAtLast(engine, e, cells, j);
    }
  }

  lemma FlatAtLast(engine: Engine, e: Expr, cells: seq<SlotObj>, j: nat)
    requires BatchCells(cells) && AllEvaluateOk(engine, e, cells) && AllCountable(cells)
    requires cells != [] && j < |BatchFlags(engine, e, cells[|cells| - 1])|
    ensures var n := |cells| - 1;
            var at := Sum(Lengths(cells[..n])) + j;
            at < |Flat(engine, e, cells)| && Flat(engine, e, cells)[at] == BatchFlags(engine, e, cells[n])[j]
  {
    hide Evaluated, Sum, Lengths, BatchFlags;
    FlatLength(engine, e, cells[..|cells| - 1]);
  }

  /* ---------- the call ---------- */

  /** The out-parameters; None where one was left alone. `text` is the message of a failure. */
  datatype MatchesReply =
    MatchesReply(code: ErrorCode, results: Option<Ptr>, count: Option<nat>, msg: Message, text: string)

  /** Everything after the arguments were found to be present, short of allocating: plan and row count. */
  predicate Plannable(engine: Engine, e: Expr, cells: seq<SlotObj>) {
    && engine.schemaError.None? && engine.dfSchemaError.None? && engine.planError(e).None?
    && TotalFits(cells)
  }

  /** The call succeeds: nothing in its way, and memory and truth values for every row if there are rows at all. */
  predicate Succeeds(engine: Engine, e: Expr, cells: seq<SlotObj>, grant: bool) {
    Plannable(engine, e, cells) && (Sum(Lengths(cells)) == 0 || (grant && AllEvaluateOk(engine, e, cells)))
  }

  /** The failure that is reported: the first thing that goes wrong, in the order in which the code looks. */
  ghost predicate FailsWith(engine: Engine, e: Expr, cells: seq<SlotObj>, grant: bool, code: ErrorCode, text: string) {
    if engine.schemaError.Some? then code == ErrorCode.Arrow && text == engine.schemaError.value
    else if engine.dfSchemaError.Some? then code == ErrorCode.Other && text == engine.dfSchemaError.value
    else if engine.planError(e).Some? then code == ErrorCode.Other && text == engine.planError(e).value
    else if !TotalFits(cells) then code == ErrorCode.InvalidArgument && Spoiled(cells, text)
    else if !grant then Sum(Lengths(cells)) > 0 && code == ErrorCode.Other && text == NO_MEMORY
    else Sum(Lengths(cells)) > 0 && FirstFailure(engine, e, cells, code, text)
  }

  method EvaluateNext(h: Heap, arrays: Ptr, i: nat, e: Expr, engine: Engine) returns (r: Outcome)
    requires h.Valid() && arrays in h.View() && h.View()[arrays].ArrayObj? && i < |h.View()[arrays].slots|
    requires Countable(h.View()[arrays].slots[i])
    modifies h
    ensures h.Valid() && h.View() == old(h.View()) && h.Temps() == old(h.Temps())
    ensures r == Evaluated(engine, e, old(h.View())[arrays].slots[i].obj.batch)
  {
    hide Forest, Held, StackBlocks, Evaluated;
    h.HeldAreLive();
    var arr := h.ReadCell(arrays, i);
    r := EvaluateBatch(h, arr, e, engine);
  }

  datatype Filled = FilledAll | GaveUp(code: ErrorCode, text: string)

  /** One round of the second pass; a batch that fails releases the buffer. */
  method FillNext(h: Heap, out: Ptr, arrays: Ptr, offset: nat, i: nat, e: Expr, engine: Engine,
                  ghost cells: seq<SlotObj>, ghost view0: map<Ptr, Object>) returns (r: Outcome)
    requires h.Valid() && out !in h.Temps() && out != arrays && i < |cells| && arrays in view0
    requires view0[arrays].ArrayObj? && |cells| <= |view0[arrays].slots| && cells == view0[arrays].slots[..|cells|]
    requires BatchCells(cells) && AllCountable(cells) && AllEvaluateOk(engine, e, cells[..i])
    requires offset == |Flat(engine, e, cells[..i])|
    requires h.View() ==
               view0[out := LeafObj(BoolBuffer(Buffer(Sum(Lengths(cells)), Flat(engine, e, cells[..i]))))]
    modifies h
    ensures h.Valid() && h.Temps() == old(h.Temps()) && r == Evaluated(engine, e, cells[i].obj.batch)
    ensures r.Failed? ==> h.View() == view0 - {out}
    ensures r.Cells? ==>
              && AllEvaluateOk(engine, e, cells[..i + 1]) && offset + |r.cells| == |Flat(engine, e, cells[..i + 1])|
              && h.View() ==
                  view0[out := LeafObj(BoolBuffer(Buffer(Sum(Lengths(cells)), Flat(engine, e, cells[..i + 1]))))]
  {
    hide Forest, Held, StackBlocks, Evaluated, Buffer, Flat, Lengths, Sum, Sane, Home;
    assert cells[i] == h.View()[arrays].slots[i] && Countable(cells[i]);
    r := EvaluateNext(h, arrays, i, e, engine);
    if r.Failed? {
      h.Free(out);
      assert h.View() == view0 - {out};
    } else {
      FlatNext(engine, e, cells, i);
      RoomForBatch(engine, e, cells, i);
      FillBatch(h, out, offset, r.cells, Sum(Lengths(cells)), Flat(engine, e, cells[..i]));
    }
  }

  /** The second pass. When a batch cannot be evaluated the buffer is freed before anything else. */
  method FillAll(h: Heap, out: Ptr, arrays: Ptr, count: nat, e: Expr, engine: Engine, ghost cells: seq<SlotObj>)
    returns (r: Filled)
    requires h.Valid() && out in h.View() && out !in h.Temps() && out != arrays
    requires arrays in h.View() && h.View()[arrays].ArrayObj? && count <= |h.View()[arrays].slots|
    requires cells == h.View()[arrays].slots[..count] && BatchCells(cells) && AllCountable(cells)
    requires h.View()[out] == LeafObj(BoolBuffer(Buffer(Sum(Lengths(cells)), [])))
    modifies h
    ensures h.Valid() && h.Temps() == old(h.Temps())
    ensures r.FilledAll? <==> AllEvaluateOk(engine, e, cells)
    ensures r.FilledAll? ==>
              h.View() == old(h.View())[out := LeafObj(BoolBuffer(Buffer(Sum(Lengths(cells)), Flat(engine, e, cells))))]
    ensures r.GaveUp? ==> h.View() == old(h.View()) - {out} && FirstFailure(engine, e, cells, r.code, r.text)
  {
    hide Forest, Held, StackBlocks, Evaluated, Buffer, Flat, Lengths, Sum, Sane;
    ghost var total, view0 := Sum(Lengths(cells)), h.View();
    var offset, i := 0, 0;
    FlatOfNothing(engine, e);
    assert cells[..0] == [];
    while i < count
      invariant i <= count && AllEvaluateOk(engine, e, cells[..i]) && offset == |Flat(engine, e, cells[..i])|
      invariant h.Valid() && h.Temps() == old(h.Temps())
      invariant h.View() == view0[out := LeafObj(BoolBuffer(Buffer(total, Flat(engine, e, cells[..i]))))]
    {
      assert cells[i] == h.View()[arrays].slots[i] && Countable(cells[i]);
      var evaluated := FillNext(h, out, arrays, offset, i, e, engine, cells, view0);
      if evaluated.Failed? {
        return GaveUp(evaluated.code, evaluated.text);
      }
      offset := offset + |evaluated.cells|;
      i := i + 1;
    }
    assert cells[..i] == cells;
    r := FilledAll;
  }

  lemma FlatOfNothing(engine: Engine, e: Expr)
    ensures Flat(engine, e, []) == []
  {
  }

  /** The first batch that cannot be evaluated decides the code and the message. */
  ghost predicate FirstFailure(engine: Engine, e: Expr, cells: seq<SlotObj>, code: ErrorCode, text: string) {
    exists i :: 0 <= i < |cells| && Countable(cells[i]) && AllEvaluateOk(engine, e, cells[..i])
      && Evaluated(engine, e, cells[i].obj.batch) == Failed(code, text)
  }

  /** What has been written and the next batch together fit into the buffer. */
  lemma RoomForBatch(engine: Engine, e: Expr, cells: seq<SlotObj>, i: nat)
    requires BatchCells(cells) && AllCountable(cells) && i < |cells|
    requires AllEvaluateOk(engine, e, cells[..i]) && EvaluatesOk(engine, e, cells[i])
    ensures |Flat(engine, e, cells[..i])| + |Evaluated(engine, e, cells[i].obj.batch).cells| <= Sum(Lengths(cells))
    ensures AllEvaluateOk(engine, e, cells[..i + 1])
  {
    hide Evaluated, Flat, Sum, Lengths, BatchFlags;
    FlatLength(engine, e, cells[..i]);
    BatchFlagsLength(engine, e, cells[i]);
    LengthsNext(cells, i);
  }

  /** A `*mut *mut FFI_ArrowArray` argument with its batch count. */
  ghost predicate BatchesArg(view: map<Ptr, Object>, arrays: Ptr, count: nat) {
    arrays == NULL
    || (arrays in view && view[arrays].ArrayObj? && count <= |view[arrays].slots|
        && BatchCells(view[arrays].slots[..count]))
  }

  ghost function BatchesAt(view: map<Ptr, Object>, arrays: Ptr, count: nat): seq<SlotObj> {
    if arrays in view && view[arrays].ArrayObj? && count <= |view[arrays].slots| then view[arrays].slots[..count]
        else []
  }

  /** The results as C reads them: one initialised flag for each row. */
  function Results(flags: seq<bool>): Object {
    LeafObj(BoolBuffer(Buffer(|flags|, flags)))
  }

  datatype Matched = Matched(code: ErrorCode, out: Ptr, total: nat, text: string)

  /** From the imported schema on: plans, counts, allocates and fills. */
  method MatchBatches(h: Heap, arrays: Ptr, count: nat, e: Expr, engine: Engine, grant: bool) returns (r: Matched)
    requires h.Valid() && BatchesArg(h.View(), arrays, count) && arrays != NULL && arrays !in h.Temps()
    modifies h
    ensures h.Valid() && h.Temps() == old(h.Temps())
    ensures var cells := BatchesAt(old(h.View()), arrays, count);
            && (r.code.Success? <==> Succeeds(engine, e, cells, grant))
            && (!r.code.Success? ==> h.View() == old(h.View()) && FailsWith(engine, e, cells, grant, r.code, r.text))
            && (r.code.Success? && Sum(Lengths(cells)) == 0 ==>
                  r.total == 0 && r.out == NULL && h.View() == old(h.View()))
            && (r.code.Success? && Sum(Lengths(cells)) > 0 ==>
                  && r.total == Sum(Lengths(cells)) == |Flat(engine, e, cells)|
                  && r.out != NULL && r.out !in old(h.View())
                  && h.View() == old(h.View())[r.out := Results(Flat(engine, e, cells))])
  {
    hide Forest, Held, StackBlocks, Home, HomeOfObject, Evaluated, Buffer, Flat, Lengths, Sum, AllEvaluateOk,
        FirstFailure, Spoiled;
    ghost var cells := BatchesAt(h.View(), arrays, count);
    if engine.schemaError.Some? {
      return Matched(ErrorCode.Arrow, NULL, 0, engine.schemaError.value);
    }
    if engine.dfSchemaError.Some? {
      return Matched(ErrorCode.Other, NULL, 0, engine.dfSchemaError.value);
    }
    if engine.planError(e).Some? {
      return Matched(ErrorCode.Other, NULL, 0, engine.planError(e).value);
    }
    var counted := CountRows(h, arrays, count);
    if counted.Err? {
      return Matched(ErrorCode.InvalidArgument, NULL, 0, counted.error);
    }
    if counted.value == 0 {
      return Matched(ErrorCode.Success, NULL, 0, "");
    }
    r := AllocateAndFill(h, arrays, count, e, engine, grant, counted.value, cells);
  }

  method AllocateAndFill(h: Heap, arrays: Ptr, count: nat, e: Expr, engine: Engine, grant: bool, total: nat,
                         ghost cells: seq<SlotObj>) returns (r: Matched)
    requires h.Valid() && BatchesArg(h.View(), arrays, count) && arrays != NULL && arrays !in h.Temps()
    requires cells == BatchesAt(h.View(), arrays, count) && AllCountable(cells) && total == Sum(Lengths(cells))
              && total > 0
    modifies h
    ensures h.Valid() && h.Temps() == old(h.Temps())
    ensures r.code.Success? <==> grant && AllEvaluateOk(engine, e, cells)
    ensures r.code.Success? ==>
              && r.total == total == |Flat(engine, e, cells)| && r.out != NULL && r.out !in old(h.View())
              && h.View() == old(h.View())[r.out := Results(Flat(engine, e, cells))]
    ensures !r.code.Success? ==>
              && h.View() == old(h.View())
              && if grant then FirstFailure(engine, e, cells, r.code, r.text)
                 else r.code == ErrorCode.Other && r.text == NO_MEMORY
  {
    hide Forest, Held, StackBlocks, Evaluated, Flat, Lengths, Sum, FirstFailure, AllEvaluateOk, Sane, Buffer;
    ghost var view0 := h.View();
    h.HeldAreLive();
    var empty := seq(total, i => None);
    assert empty == Buffer(total, []);
    var out := h.Malloc(Plain(BoolBuffer(empty)), grant);
    if out == NULL {
      return Matched(ErrorCode.Other, NULL, 0, NO_MEMORY);
    }
    h.HeldAreLive();
    var filled := FillAll(h, out, arrays, count, e, engine, cells);
    match filled
    case FilledAll =>
      FlatLength(engine, e, cells);
      r := Matched(ErrorCode.Success, out, total, "");
    case GaveUp(code, text) =>
      FailuresAreNotSuccess(engine, e, cells, code, text);
      Undone(view0, out, LeafObj(BoolBuffer(Buffer(Sum(Lengths(cells)), []))));
      r := Matched(code, NULL, 0, text);
  }

  lemma FailuresAreNotSuccess(engine: Engine, e: Expr, cells: seq<SlotObj>, code: ErrorCode, text: string)
    requires FirstFailure(engine, e, cells, code, text)
    ensures !code.Success?
  {
  }

  method JsonMatches(h: Heap, arrays: Ptr, hasSchema: bool, count: nat, expr: Ptr, hasResults: bool, hasCount: bool,
                     slot: bool, engine: Engine, grant: bool) returns (reply: MatchesReply)
    requires h.Ready() && BatchesArg(h.View(), arrays, count) && ExprArg(h.View(), expr)
    modifies h
    ensures h.Ready()
    ensures var view := old(h.View()) - {expr};
            var cells, e := BatchesAt(old(h.View()), arrays, count), ExprAt(old(h.View()), expr);
            var present := arrays != NULL && hasSchema && expr != NULL && hasResults && hasCount && count > 0;
            && (reply.code.Success? <==> present && Succeeds(engine, e, cells, grant))
            && (!present ==> reply.code == ErrorCode.InvalidArgument && reply.text == INVALID_ARGUMENT)
            && (present && !reply.code.Success? ==> FailsWith(engine, e, cells, grant, reply.code, reply.text))
            && (!reply.code.Success? ==>
                  && reply.results == None && reply.count == None
                  && MessageFits(view, slot, reply.text, reply.msg)
                     && h.View() == Delivered(view, reply.msg, reply.text))
            && (reply.code.Success? && Sum(Lengths(cells)) == 0 ==>
                  reply.results == Some(NULL) && reply.count == Some(0) && reply.msg == None && h.View() == view)
            && (reply.code.Success? && Sum(Lengths(cells)) > 0 ==>
                  && reply.msg == None && reply.count == Some(Sum(Lengths(cells)))
                  && reply.results.Some? && reply.results.value != NULL && reply.results.value !in view
                  && |Flat(engine, e, cells)| == Sum(Lengths(cells))
                  && h.View() == view[reply.results.value := Results(Flat(engine, e, cells))])
  {
    hide Forest, Held, StackBlocks, Evaluated, Buffer, Flat, Lengths, Sum, Results, Succeeds, FailsWith, MessageFits,
        Delivered, Home, HomeOfObject, Sane;
    h.HeldAreLive();
    var filter := TakeExpr(h, expr);
    ghost var view1 := h.View();
    h.HeldAreLive();
    if arrays == NULL || !hasSchema || filter == NULL || !hasResults || !hasCount || count == 0 {
      DropOptional(h, filter);
      var msg := SetMessage(h, slot, INVALID_ARGUMENT);
      return MatchesReply(ErrorCode.InvalidArgument, None, None, msg, INVALID_ARGUMENT);
    }
    assert arrays in old(h.View()) - {expr};
    var e := h.ReadExpr(filter);
    var r := MatchBatches(h, arrays, count, e, engine, grant);
    reply := ReportMatches(h, filter, r, slot);
  }

  /** Drops the filter and hands out the flags, or the message. */
  method ReportMatches(h: Heap, filter: Ptr, r: Matched, slot: bool) returns (reply: MatchesReply)
    requires h.Valid() && filter in h.View() && h.View()[filter].ExprObj? && h.Temps() == {filter}
    modifies h
    ensures h.Ready() && reply.code == r.code
    ensures !r.code.Success? ==>
              && reply.results == None && reply.count == None && reply.text == r.text
              && MessageFits(old(h.View()) - {filter}, slot, r.text, reply.msg)
              && h.View() == Delivered(old(h.View()) - {filter}, reply.msg, r.text)
    ensures r.code.Success? ==>
              && reply.results == Some(r.out) && reply.count == Some(r.total) && reply.msg == None
              && h.View() == old(h.View()) - {filter}
  {
    hide Forest, Held, StackBlocks, MessageFits, Delivered, Home, HomeOfObject;
    DropOptional(h, filter);
    if !r.code.Success? {
      var msg := SetMessage(h, slot, r.text);
      return MatchesReply(r.code, None, None, msg, r.text);
    }
    reply := MatchesReply(ErrorCode.Success, Some(r.out), Some(r.total), None, "");
  }

  lemma FailingIsNotSucceeding(engine: Engine, e: Expr, cells: seq<SlotObj>, grant: bool, code: ErrorCode,
                               text: string)
    requires BatchCells(cells) && FailsWith(engine, e, cells, grant, code, text)
    ensures !Succeeds(engine, e, cells, grant)
  {
    hide BatchCells, Sum, Lengths, FirstFailure, Spoiled, TotalFits, AllEvaluateOk, Sane;
    if Plannable(engine, e, cells) && grant {
      FirstFailureIsFirst(engine, e, cells, code, text, code, text);
    }
  }

  lemma FailsOneWay(engine: Engine, e: Expr, cells: seq<SlotObj>, grant: bool, code: ErrorCode, text: string,
                    code': ErrorCode, text': string)
    requires BatchCells(cells) && FailsWith(engine, e, cells, grant, code, text)
    requires FailsWith(engine, e, cells, grant, code', text')
    ensures code == code' && text == text'
  {
    hide BatchCells, Sum, Lengths, FirstFailure, Spoiled, TotalFits, AllEvaluateOk, Sane;
    if engine.schemaError.Some? || engine.dfSchemaError.Some? || engine.planError(e).Some? {
    } else if !TotalFits(cells) {
      FirstSpoilerIsFirst(cells, text, text');
    } else if grant {
      FirstFailureIsFirst(engine, e, cells, code, text, code', text');
    }
  }

  /** Success and failure exclude each other, and a failure has one code and one text. */
  lemma FailuresAreDetermined(engine: Engine, e: Expr, cells: seq<SlotObj>, grant: bool, code: ErrorCode, text: string,
                              code': ErrorCode, text': string)
    requires BatchCells(cells) && FailsWith(engine, e, cells, grant, code, text)
    ensures !Succeeds(engine, e, cells, grant)
    ensures FailsWith(engine, e, cells, grant, code', text') ==> code == code' && text == text'
  {
    hide BatchCells, FailsWith, Succeeds, Sane;
    FailingIsNotSucceeding(engine, e, cells, grant, code, text);
    if FailsWith(engine, e, cells, grant, code', text') {
      FailsOneWay(engine, e, cells, grant, code, text, code', text');
    }
  }

  lemma FirstFailureIsFirst(engine: Engine, e: Expr, cells: seq<SlotObj>, code: ErrorCode, text: string,
                            code': ErrorCode, text': string)
    requires FirstFailure(engine, e, cells, code, text) && FirstFailure(engine, e, cells, code', text')
    ensures code == code' && text == text' && !AllEvaluateOk(engine, e, cells)
  {
    hide Evaluated;
    var i :| 0 <= i < |cells| && Countable(cells[i]) && AllEvaluateOk(engine, e, cells[..i])
      && Evaluated(engine, e, cells[i].obj.batch) == Failed(code, text);
    var j :| 0 <= j < |cells| && Countable(cells[j]) && AllEvaluateOk(engine, e, cells[..j])
      && Evaluated(engine, e, cells[j].obj.batch) == Failed(code', text');
    assert i < j ==> EvaluatesOk(engine, e, cells[..j][i]);
    assert j < i ==> EvaluatesOk(engine, e, cells[..i][j]);
  }

  lemma FirstSpoilerIsFirst(cells: seq<SlotObj>, text: string, text': string)
    requires Spoiled(cells, text) && Spoiled(cells, text')
    ensures text == text'
  {
    var i :| 0 <= i < |cells| && SpoiledAt(cells, i, text);
    var j :| 0 <= j < |cells| && SpoiledAt(cells, j, text');
    if i < j {
      SpoiledFromThenOn(cells, i, j, text);
    } else if j < i {
      SpoiledFromThenOn(cells, j, i, text');
    }
  }

  lemma SpoiledFromThenOn(cells: seq<SlotObj>, i: nat, j: nat, text: string)
    requires i < j <= |cells| && SpoiledAt(cells, i, text) && AllCountable(cells[..j])
    ensures Sum(Lengths(cells[..j])) > USIZE_MAX
  {
    hide Sum, Lengths;
    assert cells[..j][i] == cells[i] && cells[..j][..i] == cells[..i] && cells[..j][..i + 1] == cells[..i + 1];
    LengthsNext(cells[..j], i);
  }

  /** lancedb_free_json_matches. */
  method FreeJsonMatches(h: Heap, results: Ptr)
    requires h.Ready()
    requires results == NULL || (results in h.View() && h.View()[results].LeafObj?
                                 && h.View()[results].leaf.BoolBuffer?)
    modifies h
    ensures h.Ready() && h.View() == old(h.View()) - {results}
  {
    hide Forest, Held, StackBlocks;
    h.HeldAreLive();
    if results != NULL {
      h.Free(results);
    }
  }
}
