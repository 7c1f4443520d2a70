/**
 What connect builders, sessions, registries, listings and query results hold after any run, read off
 the calls that made them, and what a conversion to Arrow therefore hands out.
 */
module HandleRuns {
  import opened Basics
  import opened Exprs
  import opened Objects
  import opened Errors
  import opened JsonMatches
  import opened QueryApi
  import opened ConnectionApi
  import opened Calls
  import opened Protocol
  import opened Spelling

  function ProvidersOf(leaf: Leaf): Providers {
    match leaf
    case Registry(providers) => providers
    case Session(providers) => providers
    case _ => map[]
  }

  const NOTHING := CStr("")

  /** The contents a connection call spells, given what its operands held; a rejected call spells nothing. */
  ghost function SpellConnection(call: ConnectionCall, held: Ptr -> Leaf): Leaf {
    match call
    case NewBuilder(Text(uri)) => ConnectBuilder(uri, [], None)
    case AddOption(b, Text(key), Text(value)) =>
      (match held(b)
       case ConnectBuilder(uri, options, session) => ConnectBuilder(uri, options + [(key, value)], session)
       case _ => NOTHING)
    case UseSession(b, s) =>
      (match held(b)
       case ConnectBuilder(uri, options, session) =>
         ConnectBuilder(uri, options, if s == NULL then session else Some(ProvidersOf(held(s))))
       case _ => NOTHING)
    case Open(_, _, Ok(id), _) => Leaf.Connection(id)
    case NewRegistry(defaults) => Registry(defaults)
    case NewSession(r, defaults) => Leaf.Session(if r == NULL then defaults else ProvidersOf(held(r)))
    case Insert(r, Text(scheme), provider, _) =>
      (match held(provider)
       case Provider(Some(inner)) => Registry(ProvidersOf(held(r))[scheme := inner])
       case _ => NOTHING)
    case NewNames(c) =>
      (match held(c)
       case Connection(id) => TableNamesBuilder(id, None, None)
       case _ => NOTHING)
    case NamesPage(b, page) =>
      (match (held(b), page)
       case (TableNamesBuilder(id, _, startAfter), PageLimit(n)) => TableNamesBuilder(id, Some(n), startAfter)
       case (TableNamesBuilder(id, limit, _), PageAfter(Text(name))) => TableNamesBuilder(id, limit, Some(name))
       case _ => NOTHING)
    case _ => NOTHING
  }

  /** What the last call that returned a handle or wrote to it spells for it, over what its operands held. */
  ghost function SpellLeaf(trace: seq<Event>, p: Ptr): Leaf
    decreases |trace|
  {
    if trace == [] then NOTHING
    else
      var last, before := trace[|trace| - 1], trace[..|trace| - 1];
      if !MakesLeaf(last, p) then SpellLeaf(before, p)
      else
        match last.call
        case Frees(m) => m.leaf
        case Queries(q) => if q.outcome.Ok? then QueryResult(q.outcome.value) else NOTHING
        case Connections(c) => SpellConnection(c, q => SpellLeaf(before, q))
        case _ => NOTHING
  }

  /** The handles a successful call has read. */
  predicate OperandsGiven(call: ConnectionCall) {
    match call
    case AddOption(b, _, _) => b != NULL
    case UseSession(b, _) => b != NULL
    case Insert(r, _, provider, _) => r != NULL && provider != NULL
    case NewNames(c) => c != NULL
    case NamesPage(b, _) => b != NULL
    case _ => true
  }

  /** `held` says what the handles in a state hold. */
  ghost predicate Knows(view: View, held: Ptr -> Leaf) {
    forall q :: q in view && q != NULL && view[q].LeafObj? && IsRead(view[q].leaf) ==> held(q) == view[q].leaf
  }

  lemma OperandsAgree(view: View, call: ConnectionCall, held: Ptr -> Leaf)
    requires LegalConnection(view, call) && OperandsGiven(call) && Knows(view, held)
    ensures SpellConnection(call, q => LeafAt(view, q)) == SpellConnection(call, held)
  {
  }

  lemma ConnectionsMake(view: View, call: ConnectionCall, reply: Reply, view': View, p: Ptr)
    requires LegalConnection(view, call) && ConnectionStep(view, call, reply, view') && p != NULL
    requires MakesLeaf(Event(Connections(call), reply), p)
    ensures OperandsGiven(call)
    ensures p in view' && view'[p] == LeafObj(SpellConnection(call, q => LeafAt(view, q)))
  {
    hide NamesStep, CreateTableStep;
  }

  lemma ExecutionsMake(view: View, call: QueryCall, reply: Reply, view': View, engines: nat -> Engine)
    requires QueryStep(view, call, reply, view', engines) && call.Execute? && reply.Executed? && reply.p != NULL
    ensures call.outcome.Ok? && reply.p in view' && view'[reply.p] == LeafObj(QueryResult(call.outcome.value))
  {
    hide SettingOf, MatchesStep, ToArrowStep;
  }

  /** One call: a handle that was there still holds the same, or holds what this call made. */
  lemma OneLeafStep(s: State, event: Event, s': State, engines: nat -> Engine, p: Ptr)
    requires Legal(s.view, event.call) && Stepped(s, event.call, event.reply, s', engines)
    requires Changes(s.view, event, s'.view)
    requires p != NULL && p in s'.view && s'.view[p].LeafObj? && IsRead(s'.view[p].leaf)
    ensures if !MakesLeaf(event, p) then p in s.view && s.view[p] == s'.view[p]
            else
              match event.call
              case Frees(m) => s'.view[p].leaf == m.leaf
              case Queries(q) => q.outcome.Ok? && s'.view[p].leaf == QueryResult(q.outcome.value)
              case Connections(c) =>
                && LegalConnection(s.view, c) && OperandsGiven(c)
                && s'.view[p].leaf == SpellConnection(c, q => LeafAt(s.view, q))
              case _ => false
  {
    hide LegalExpr, LegalQuery, LegalTable, LegalConnection, LegalFree, ExprStep, QueryStep, TableStep, ConnectionStep,
        SpellConnection, OperandsGiven;
    if MakesLeaf(event, p) {
      if event.call.Connections? {
        ConnectionsMake(s.view, event.call.c, event.reply, s'.view, p);
      } else if event.call.Queries? {
        ExecutionsMake(s.view, event.call.q, event.reply, s'.view, engines);
      }
    }
  }

  /** After any run, every live handle of these kinds holds exactly what the calls that produced it spell. */
  lemma {:induction false} HandlesHoldTheirSpelling(trace: seq<Event>, states: seq<State>, engines: nat -> Engine,
                                                    p: Ptr)
    requires Happened(trace, states, engines) && p != NULL && p in states[|trace|].view
    requires states[|trace|].view[p].LeafObj? && IsRead(states[|trace|].view[p].leaf)
    ensures states[|trace|].view[p].leaf == SpellLeaf(trace, p)
    decreases |trace|
  {
    hide Legal, Stepped, Changes, Happened, SpellConnection, IsRead, LegalConnection, MakesLeaf;
    FirstView(trace, states, engines);
    var n := |trace| - 1;
    StepInto(trace, states, engines);
    var before, view, last := trace[..n], states[n].view, trace[n];
    OneLeafStep(states[n], last, states[n + 1], engines, p);
    if !MakesLeaf(last, p) {
      HandlesHoldTheirSpelling(before, states[..n + 1], engines, p);
    } else if last.call.Connections? {
      forall q | q in view && q != NULL && view[q].LeafObj? && IsRead(view[q].leaf)
        ensures SpellLeaf(before, q) == view[q].leaf
      {
        HandlesHoldTheirSpelling(before, states[..n + 1], engines, q);
      }
      OperandsAgree(view, last.call.c, q => SpellLeaf(before, q));
    }
  }

  /* ---------- conversions to Arrow ---------- */

  /**
   What a successful conversion of a stream leaves with the caller: nothing for an empty one, otherwise an array
   with one Arrow array a batch, each as long as its batch has rows, and a schema that names the columns of the
   first batch.
   */
  ghost predicate HandsOut(view: View, a: ArrowReply, bs: seq<Batch>) {
    && a.count == Some(|bs|) && a.batches.Some? && a.schema.Some?
    && var list, schema := a.batches.value, a.schema.value;
       if |bs| == 0 then list == NULL && schema == NULL
       else
         && list != NULL && schema != NULL && list in view && schema in view
         && view[list].ArrayObj? && |view[list].slots| == |bs|
         && (forall i :: 0 <= i < |bs| ==>
               && view[list].slots[i].Is? && view[list].slots[i].obj.ArrowObj?
               && view[list].slots[i].obj.length as int == |bs[i].rows| && view[list].slots[i].obj.batch == bs[i])
         && view[schema].LeafObj? && view[schema].leaf.Schema?
         && (forall c :: c in view[schema].leaf.columns <==> exists j :: 0 <= j < |bs[0].rows| && c in bs[0].rows[j])
  }

  lemma ConversionsHandOut(view: View, bs: seq<Batch>, schemaError: Option<string>, grant: bool, slot: bool,
                           view': View, a: ArrowReply)
    requires Converted(view, Ok(bs), schemaError, grant, slot, view', a) && a.code.Success?
    ensures HandsOut(view', a, bs)
  {
    hide ExportFailed;
    if bs != [] {
      var list, schema := a.batches.value, a.schema.value;
      assert view'[list] == ArrowList(bs) && view'[schema] == LeafObj(Leaf.Schema(Objects.Columns(bs[0])));
      forall i | 0 <= i < |bs| ensures view'[list].slots[i] == Is(ArrowOf(bs[i])) {
      }
    }
  }

  /** All rows of a stream, in order. */
  function RowsOf(bs: seq<Batch>): seq<Row> {
    if bs == [] then [] else RowsOf(bs[..|bs| - 1]) + bs[|bs| - 1].rows
  }

  lemma {:induction false} LengthsCountRows(cells: seq<SlotObj>, bs: seq<Batch>)
    requires |cells| == |bs| && AllCountable(cells)
    requires forall i :: 0 <= i < |bs| ==> cells[i].obj.length as int == |bs[i].rows|
    ensures Sum(Lengths(cells)) == |RowsOf(bs)|
  {
    if bs != [] {
      var n := |bs| - 1;
      LengthsCountRows(cells[..n], bs[..n]);
      assert Lengths(cells)[..n] == Lengths(cells[..n]);
      assert Lengths(cells) == Lengths(cells[..n]) + [Lengths(cells)[n]];
    }
  }

  /** Every column that a row of the stream has, some row of the first batch has as well. */
  ghost predicate FirstNamesAll(bs: seq<Batch>)
    requires bs != []
  {
    forall i, j, c :: 0 <= i < |bs| && 0 <= j < |bs[i].rows| && c in bs[i].rows[j] ==>
        exists k :: 0 <= k < |bs[0].rows| && c in bs[0].rows[k]
  }

  /**
   What was handed out can be given to lancedb_json_matches with its count, which counts every row of the stream,
   and to lancedb_free_arrow_arrays and lancedb_free_arrow_schema. Unless a later batch has
   columns the first has not, every column of every row is in the schema.
   */
  lemma HandedOutArraysAreAccepted(view: View, a: ArrowReply, bs: seq<Batch>)
    requires HandsOut(view, a, bs) && bs != []
    ensures BatchesArg(view, a.batches.value, a.count.value)
    ensures var cells := BatchesAt(view, a.batches.value, a.count.value);
            AllCountable(cells) && |cells| == |bs| && Sum(Lengths(cells)) == |RowsOf(bs)|
    ensures Legal(view, Frees(FreeArrows(a.batches.value, a.count.value)))
    ensures Legal(view, Frees(FreeBox(a.schema.value)))
    ensures FirstNamesAll(bs) ==>
              forall i, j, c :: 0 <= i < |bs| && 0 <= j < |bs[i].rows| && c in bs[i].rows[j] ==>
                  c in view[a.schema.value].leaf.columns
  {
    hide LegalExpr, LegalQuery, LegalTable, LegalConnection;
    var cells := view[a.batches.value].slots;
    assert cells[..|bs|] == cells;
    LengthsCountRows(cells, bs);
  }

  /**
   Whatever happened in between, converting a live query result hands out the batches the library answered the
   execution with that returned it; if the stream breaks off, an unknown error is reported instead.
   */
  lemma ConversionsHandOutTheExecution(trace: seq<Event>, states: seq<State>, engines: nat -> Engine, i: nat)
    requires Happened(trace, states, engines) && i < |trace|
    requires trace[i].call.Queries? && trace[i].call.q.ToArrow?
    requires trace[i].call.q.result != NULL && trace[i].call.q.hasOutputs
    ensures trace[i].reply.Arrows?
    ensures SpellLeaf(trace[..i], trace[i].call.q.result).QueryResult?
    ensures var a := trace[i].reply.arrow;
            match SpellLeaf(trace[..i], trace[i].call.q.result).stream
            case Ok(bs) =>
              && (a.code.Success? <==> |bs| == 0 || (trace[i].call.q.schemaError.None? && trace[i].call.q.grant))
              && (a.code.Success? ==> HandsOut(states[i + 1].view, a, bs))
            case Err(_) => a.code == ErrorCode.Unknown && a.batches == None && a.schema == None && a.count == None
  {
    hide Legal, Stepped, HandsOut, IsRead;
    var call := trace[i].call.q;
    assert StepOf(trace, states, i, engines);
    ToArrowEvent(states[i], trace[i], states[i + 1], engines);
    Prefix(trace, states, engines, i);
    ResultsAreRead(states[i].view[call.result].leaf);
    HandlesHoldTheirSpelling(trace[..i], states[..i + 1], engines, call.result);
    var stream, a := states[i].view[call.result].leaf.stream, trace[i].reply.arrow;
    if stream.Ok? && a.code.Success? {
      ConversionsHandOut(states[i].view - {call.result}, stream.value, call.schemaError, call.grant, call.slot,
                         states[i + 1].view, a);
    }
  }

  lemma ResultsAreRead(leaf: Leaf)
    requires leaf.QueryResult?
    ensures IsRead(leaf)
  {
  }

  lemma ToArrowEvent(s: State, event: Event, s': State, engines: nat -> Engine)
    requires Legal(s.view, event.call) && Stepped(s, event.call, event.reply, s', engines)
    requires event.call.Queries? && event.call.q.ToArrow? && event.call.q.result != NULL && event.call.q.hasOutputs
    ensures event.reply.Arrows? && ResultArg(s.view, event.call.q.result)
    ensures var q := event.call.q;
            Converted(s.view - {q.result}, s.view[q.result].leaf.stream, q.schemaError, q.grant, q.slot, s'.view,
                      event.reply.arrow)
  {
    hide LegalExpr, LegalTable, LegalConnection, LegalFree, ExprStep, TableStep, ConnectionStep, FreeStep, MatchesStep,
        SetterResult, SettingOf, ExecuteStep, Converted, BatchesArg;
  }
}
