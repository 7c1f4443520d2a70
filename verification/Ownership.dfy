/**
 Which handles a call takes from the program: what the code does on every path, what include/lancedb.h
 says, and exactly when the two agree.
 */
module Ownership {
  import opened Basics
  import opened Objects
  import opened Messages
  import opened Errors
  import opened ExprApi
  import opened JsonMatches
  import opened Requests
  import opened QueryApi
  import opened VersionApi
  import opened TableApi
  import opened MetadataApi
  import opened ConnectionApi
  import opened Calls
  import opened Protocol
  import Map = MetadataMap
  import Marshal

  /* ---------- what the code takes ---------- */

  ghost function TakenByQuery(call: QueryCall): set<Ptr> {
    match call
    case Execute(q, _) => {q}
    case ToArrow(result, hasOutputs, _, _, _) => if hasOutputs then {result} else {}
    case Matches(_, _, _, e, _, _, _, _, _) => {e}
    case ExprFilter(_, _, _) => TakenBySetter(call)
    case _ => {}
  }

  ghost function TakenByTable(call: TableCall): set<Ptr> {
    match call
    case FromArrow(data, hasSchema, hasOut, badSchema, _, _) =>
      if hasSchema && hasOut && badSchema.None? then {data}
      else {}
    case Add(t, r, _, _) => if t != NULL then {r} else {}
    case MergeInsert(_, r, _, _, _, _) => {r}
    case DfDelete(_, e, _, _) => {e}
    case _ => {}
  }

  ghost function TakenByConnection(call: ConnectionCall): set<Ptr> {
    match call
    case AddOption(b, _, _) => {b}
    case UseSession(b, _) => {b}
    case Open(b, _, _, _) => {b}
    case NewSession(r, _) => {r}
    case Insert(r, scheme, p, _) => if r != NULL && scheme.Text? then {p} else {}
    case CreateTable(c, name, hasSchema, r, hasOut, schemaError, _, _, _, _) =>
      if c != NULL && name.Text? && hasSchema && hasOut && schemaError.None? then {r} else {}
    case NamesPage(b, _) => {b}
    case NamesRun(b, _, _, _, _) => {b}
    case _ => {}
  }

  /** The handles a call takes from the program; NULL among them means nothing. */
  ghost function Taken(call: Calls.Call): set<Ptr> {
    match call
    case Exprs(e) => Consumed(e)
    case Queries(q) => TakenByQuery(q)
    case Tables(t) => TakenByTable(t)
    case Connections(c) => TakenByConnection(c)
    case Frees(m) => Released(m)
  }

  /** The handle whose object a call updates in place. */
  ghost function Updated(call: Calls.Call): set<Ptr> {
    if call.Queries? && IsSetter(call.q) then {call.q.q}
    else if call.Connections? && call.c.Insert? then {call.c.registry}
    else {}
  }

  ghost function Given(out: Option<Ptr>): set<Ptr> {
    if out.Some? then {out.value} else {}
  }

  /** The handles a reply gives to the program. */
  ghost function Returned(reply: Reply): set<Ptr> {
    Given(MessageOf(reply)) +
    match reply
    case Handle(p, _) => {p}
    case Setter(_, _) => {}
    case Executed(p, _) => {p}
    case Arrows(a, _, _) => Given(a.batches) + Given(a.schema)
    case Flags(m) => Given(m.results)
    case Plain(_) => {}
    case Out(_, out) => Given(out)
    case Listed(l) => Given(l.list)
    case VersionsGot(v) => Given(v.versions) + Given(v.metadata)
    case MetadataGot(m) => Given(m.keys) + Given(m.values)
    case Freed => {}
  }

  /**
   Taken handles are gone, unless their address is given out anew; all other handles stay, keep their
   objects unless the call updates them in place, and are not among the handles given out.
   */
  ghost predicate Framed(view: View, taken: set<Ptr>, updated: set<Ptr>, returned: set<Ptr>, view': View) {
    && (forall p :: p in view && p != NULL && p in taken ==> p !in view' || p in returned)
    && (forall p :: p in view && p != NULL && p !in taken ==>
          p in view' && p !in returned && (p !in updated ==> view'[p] == view[p]))
  }

  lemma ExprFrame(view: View, call: ExprCall, reply: Reply, view': View)
    requires reply.Handle? && ExprStep(view, call, view', reply.p, reply.msg)
    ensures Framed(view, Consumed(call), {}, Returned(reply), view')
  {
    hide Consumed, TermOf, Yields, HasSlot;
  }

  lemma MatchesFrame(view: View, call: QueryCall, engine: Engine, view': View, m: MatchesReply)
    requires call.Matches? && MatchesStep(view, call, engine, view', m)
    ensures Framed(view, {call.expr}, {}, Given(m.msg) + Given(m.results), view')
  {
    hide Sum, Lengths, Flat, Buffer, Succeeds, FailsWith;
  }

  lemma SetterFrame(left: View, q: Ptr, s: SetterCall, slot: bool, view': View, code: ErrorCode, msg: Message)
    requires SetterResult(left, q, s, slot, view', code, msg)
    ensures Framed(left, {}, {q}, Given(msg), view')
    ensures forall p :: p in view' && p !in left ==> p in Given(msg)
  {
    hide Apply;
  }

  lemma SettersFrame(view: View, call: QueryCall, reply: Reply, view': View, engines: nat -> Engine)
    requires IsSetter(call) && LegalQuery(view, call) && QueryStep(view, call, reply, view', engines)
    ensures Framed(view, TakenByQuery(call), Updated(Queries(call)), Returned(reply), view')
  {
    hide SetterResult, SettingOf, AllText;
    SetterFrame(view - TakenBySetter(call), call.q, SettingOf(call, p => ExprAt(view, p)), call.slot, view',
                reply.code, reply.msg);
  }

  lemma ResultsFrame(view: View, call: QueryCall, reply: Reply, view': View, engines: nat -> Engine)
    requires (call.Matches? || call.ToArrow?) && QueryStep(view, call, reply, view', engines)
    ensures Framed(view, TakenByQuery(call), Updated(Queries(call)), Returned(reply), view')
  {
    hide MatchesStep, Converted;
    if call.Matches? {
      MatchesFrame(view, call, engines(call.engine), view', reply.matches);
    } else if call.result != NULL && call.hasOutputs {
      ConvertedFrame(view - {call.result}, StreamAt(view, call.result), call.schemaError, call.grant, call.slot, view',
                     reply.arrow);
    }
  }

  lemma QueryFrame(view: View, call: QueryCall, reply: Reply, view': View, engines: nat -> Engine)
    requires LegalQuery(view, call) && QueryStep(view, call, reply, view', engines)
    ensures Framed(view, TakenByQuery(call), Updated(Queries(call)), Returned(reply), view')
  {
    hide MatchesStep, ToArrowStep, SetterResult, SettingOf, BatchesArg, RequestOf;
    if IsSetter(call) {
      SettersFrame(view, call, reply, view', engines);
    } else if call.Matches? || call.ToArrow? {
      ResultsFrame(view, call, reply, view', engines);
    }
  }

  lemma ConvertedFrame(view: View, stream: Stream, schemaError: Option<string>, grant: bool, slot: bool, view': View,
                       a: ArrowReply)
    requires Converted(view, stream, schemaError, grant, slot, view', a)
    ensures Framed(view, {}, {}, Given(a.msg) + Given(a.batches) + Given(a.schema), view')
    ensures forall p :: p in view' && p !in view ==> p in Given(a.msg) + Given(a.batches) + Given(a.schema)
  {
    hide ArrowCells, Objects.Columns;
  }

  lemma ListingFrame(left: View, accepted: bool, names: Result<seq<string>, Failure>, grant: bool, slot: bool,
                     view': View, l: Marshal.ListReply)
    requires NamesStep(left, accepted, names, grant, slot, view', l)
    ensures Framed(left, {}, {}, Given(l.status.msg) + Given(l.list), view')
    ensures forall p :: p in view' && p !in left ==> p in Given(l.status.msg) + Given(l.list)
  {
    hide Marshal.StringCells, IsFailure, Marshal.AllNulFree;
  }

  lemma PairsFrame(view: View, es: Entries, grant: (bool, bool), slot: bool, view': View, m: MetadataReply)
    requires EntriesEnded(view, es, grant, slot, view', m)
    ensures Framed(view, {}, {}, Returned(MetadataGot(m)), view')
  {
    hide Marshal.StringCells, VersionApi.Keys, Values;
  }

  lemma MetadataFrame(s: State, call: TableCall, view': View, m: MetadataReply)
    requires call.Metadata? && MetadataStep(s, call, view', m)
    ensures Framed(s.view, {}, {}, Returned(MetadataGot(m)), view')
  {
    hide EntriesEnded, AllText, Map.IsOrderOf, Map.Filtered, IsFailure;
    var stored := Stored(Looked(s.datasets, call.table, call.filter, call.hasOutputs, call.backend), call.table);
    var present := Askable(call.table, call.filter, call.hasOutputs);
    var order: seq<string> :| Map.IsOrderOf(order, stored)
      && GetEnded(s.view, stored, present, call.filter, call.backend, call.grants, order, call.slot, view', m);
    if present && call.backend.Accepts? && Readable(call.filter) {
      PairsFrame(s.view, Selected(stored, call.filter, order), call.grants, call.slot, view', m);
    }
  }

  lemma VersionsFrame(s: State, call: TableCall, view': View, v: VersionsReply)
    requires call.Versions? && TableStep(s, call, VersionsGot(v), view')
    ensures Framed(s.view, {}, {}, Returned(VersionsGot(v)), view')
  {
    hide MetadataCells, Counts, Infos, VersionApi.Metadata, IsFailure, ListingGranted;
  }

  lemma TableFrame(s: State, call: TableCall, reply: Reply, view': View)
    requires TableStep(s, call, reply, view')
    ensures Framed(s.view, TakenByTable(call), {}, Returned(reply), view')
  {
    hide PlanIn, RequestOf, Requests.After, Converted, NamesStep, VersionsListed, AllText, MetadataStep, IsFailure,
        Framed;
    var view := s.view;
    match call
    case Nearest(_, _, _, _, _, _, _, _, _) => NearestFrame(view, call, view', reply.arrow, reply.text, reply.request);
    case Metadata(_, _, _, _, _, _) => MetadataFrame(s, call, view', reply.pairs);
    case Indices(t, hasOutputs, names, grant, slot) =>
      ListingFrame(view, t != NULL && hasOutputs, names, grant, slot, view', reply.list);
    case Versions(_, _, _, _, _, _) => VersionsFrame(s, call, view', reply.versions);
    case _ => MovedFrame(s, call, reply, view');
  }

  lemma NearestFrame(view: View, call: TableCall, view': View, a: ArrowReply, text: string, request: Option<Request>)
    requires call.Nearest? && NearestStep(view, call, view', a, text, request)
    ensures Framed(view, {}, {}, Given(a.msg) + (Given(a.batches) + Given(a.schema)), view')
  {
    hide RequestOf, Requests.After, Converted, IsFailure;
    if request.Some? && call.found.Ok? {
      ConvertedFrame(view, Ok(call.found.value), if call.schemaFails then Some(UNKNOWN_ERROR) else None, call.grant,
                     call.slot, view', a);
    }
  }

  lemma MovedFrame(s: State, call: TableCall, reply: Reply, view': View)
    requires TableStep(s, call, reply, view')
    requires call.FromArrow? || call.Add? || call.MergeInsert? || call.DfDelete? || call.ChangeEntries?
    ensures Framed(s.view, TakenByTable(call), {}, Returned(reply), view')
  {
    hide PlanIn, IsFailure;
  }

  lemma BuilderFrame(view: View, call: ConnectionCall, reply: Reply, view': View)
    requires ConnectionStep(view, call, reply, view') && IsBuilderCall(call)
    ensures Framed(view, TakenByConnection(call), {}, Returned(reply), view')
  {
    hide NamesStep, IsFailure, CreateTableStep, InsertStep, Opened, WithOption, WithSession, WithPage, SessionOver,
        PageReadable;
  }

  lemma OpenFrame(view: View, call: ConnectionCall, reply: Reply, view': View)
    requires LegalConnection(view, call) && ConnectionStep(view, call, reply, view')
    requires call.Open? || call.Insert? || call.CreateTable? || call.OpenTableCall?
    ensures Framed(view, TakenByConnection(call), Updated(Connections(call)), Returned(reply), view')
  {
    hide NamesStep, IsFailure, Replaced, WithProvider, CreationFailure;
  }

  lemma ConnectionFrame(view: View, call: ConnectionCall, reply: Reply, view': View)
    requires LegalConnection(view, call) && ConnectionStep(view, call, reply, view')
    ensures Framed(view, TakenByConnection(call), Updated(Connections(call)), Returned(reply), view')
  {
    hide NamesStep, IsFailure, CreateTableStep, InsertStep, Opened, Replaced, Framed;
    match call
    case Names(c, hasOutputs, parent, names, grant, slot) =>
      ListingFrame(view, c != NULL && hasOutputs && !parent.BadUtf8?, names, grant, slot, view', reply.list);
    case NamesRun(b, hasOutputs, names, grant, slot) => NamesRunFrame(view, call, reply, view');
    case _ =>
      if IsBuilderCall(call) {
        BuilderFrame(view, call, reply, view');
      } else {
        OpenFrame(view, call, reply, view');
      }
  }

  lemma NamesRunFrame(view: View, call: ConnectionCall, reply: Reply, view': View)
    requires call.NamesRun? && ConnectionStep(view, call, reply, view')
    ensures Framed(view, {call.builder}, {}, Returned(reply), view')
  {
    hide NamesStep, CreateTableStep, InsertStep, Opened, Replaced;
    ListingFrame(view - {call.builder}, call.builder != NULL && call.hasOutputs, call.names, call.grant, call.slot,
                 view', reply.list);
  }

  lemma FreeFrame(view: View, call: MemoryCall, reply: Reply, view': View)
    requires FreeStep(view, call, reply, view')
    ensures Framed(view, Released(call), {}, Returned(reply), view')
  {
  }

  /**
   Ownership of every handle across every call: it is gone afterwards exactly if the call takes it, and
   otherwise still there, unchanged unless the call updates it in place. So consuming or freeing a clone
   never changes the original, and a borrowed argument survives.
   */
  lemma EveryHandleIsAccountedFor(s: State, event: Event, s': State, engines: nat -> Engine)
    requires Legal(s.view, event.call) && Stepped(s, event.call, event.reply, s', engines)
    ensures Framed(s.view, Taken(event.call), Updated(event.call), Returned(event.reply), s'.view)
  {
    hide LegalExpr, LegalQuery, LegalTable, LegalConnection, LegalFree, ExprStep, QueryStep, TableStep, ConnectionStep,
        FreeStep, Framed, Returned;
    match event.call
    case Exprs(e) => ExprFrame(s.view, e, event.reply, s'.view);
    case Queries(q) => QueryFrame(s.view, q, event.reply, s'.view, engines);
    case Tables(t) => TableFrame(s, t, event.reply, s'.view);
    case Connections(c) => ConnectionFrame(s.view, c, event.reply, s'.view);
    case Frees(m) => FreeFrame(s.view, m, event.reply, s'.view);
  }

  /* ---------- what the documentation says ---------- */

  /** The handles include/lancedb.h says the program must not use or free after the call. */
  ghost function Documented(event: Event): set<Ptr> {
    match event.call
    case Exprs(e) =>
      if e.MakeInList? then {e.expr} + (if e.list.Some? then SetOf(e.list.value) else {})
      else Consumed(e)
    case Queries(q) =>
      (match q
       case ExprFilter(_, e, _) => {e}
       case Execute(p, _) => {p}
       case ToArrow(result, _, _, _, _) => {result}
       case Matches(_, _, _, e, _, _, _, _, _) => {e}
       case _ => {})
    case Tables(t) =>
      (match t
       case FromArrow(data, _, _, _, _, _) => {data}
       case Add(_, r, _, _) => {r}
       case MergeInsert(_, r, _, _, _, _) => {r}
       case DfDelete(_, e, _, _) => {e}
       case _ => {})
    case Connections(c) =>
      (match c
       case AddOption(b, _, _) => {b}
       case UseSession(b, _) => {b}
       case Open(b, _, _, _) => if Protocol.Succeeded(event.reply) then {b} else {}
       case NewSession(r, _) => {r}
       case Insert(_, _, p, _) => {p}
       case CreateTable(_, _, _, r, _, _, _, _, _, _) => {r}
       case NamesPage(b, _) => {b}
       case NamesRun(b, _, _, _, _) => {b}
       case _ => {})
    case Frees(m) => Released(m)
  }

  /**
   When a call that documents a handle as taken takes it. Except for the schema, a caller sees this before the
   call.
   */
  predicate KeepsItsWord(call: Calls.Call) {
    match call
    case Exprs(MakeInList(e, _, _, _)) => e != NULL
    case Queries(ExprFilter(q, e, _)) => q != NULL
    case Queries(ToArrow(_, hasOutputs, _, _, _)) => hasOutputs
    case Tables(FromArrow(_, hasSchema, hasOut, badSchema, _, _)) => hasSchema && hasOut && badSchema.None?
    case Tables(Add(t, _, _, _)) => t != NULL
    case Connections(Insert(r, scheme, _, _)) => r != NULL && scheme.Text?
    case Connections(CreateTable(c, name, hasSchema, _, hasOut, schemaError, _, _, _, _)) =>
      c != NULL && name.Text? && hasSchema && hasOut && schemaError.None?
    case _ => true
  }

  /** The handle is gone; if its address is in use again, it was given out by this very call. */
  ghost predicate Gone(event: Event, view': View, p: Ptr) {
    p !in view' || p in Returned(event.reply)
  }

  lemma PresentAreConsumed(e: Ptr, list: seq<Ptr>, p: Ptr)
    requires p in list && p != NULL && e != NULL
    ensures p in SetOf(InListConsumed(e, Some(list)))
  {
    assert p in Present(list);
  }

  lemma DocumentedAreTaken(event: Event, p: Ptr)
    requires p in Documented(event) && p != NULL
    ensures p in Taken(event.call) <==> KeepsItsWord(event.call)
  {
    hide Present, Protocol.Succeeded;
    if event.call.Exprs? && event.call.e.MakeInList? {
      var e := event.call.e;
      if e.expr != NULL && p != e.expr {
        PresentAreConsumed(e.expr, e.list.value, p);
      }
    }
  }

  /**
   The documentation holds for a handle exactly under the guard of its call: a program that relies on a
   documented transfer leaks the handle if and only if the guard fails.
   */
  lemma DocumentedHandlesAreGone(s: State, event: Event, s': State, engines: nat -> Engine, p: Ptr)
    requires Legal(s.view, event.call) && Stepped(s, event.call, event.reply, s', engines)
    requires p in Documented(event) && p in s.view && p != NULL
    ensures Gone(event, s'.view, p) <==> KeepsItsWord(event.call)
    ensures !KeepsItsWord(event.call) ==> p in s'.view && s'.view[p] == s.view[p]
  {
    hide Legal, Stepped, Documented, Returned, Taken, Updated, KeepsItsWord;
    EveryHandleIsAccountedFor(s, event, s', engines);
    DocumentedAreTaken(event, p);
    DocumentedAreNotUpdated(s.view, event, p);
  }

  /** No call documents as taken the handle it updates. */
  lemma DocumentedAreNotUpdated(view: View, event: Event, p: Ptr)
    requires Legal(view, event.call) && p in Documented(event) && p in view && p != NULL
    ensures p !in Updated(event.call)
  {
    hide LegalExpr, LegalTable, LegalFree, Consumed, Protocol.Succeeded;
  }

  /** The one call that takes more than it documents: executing a connect builder, when it fails. */
  lemma OnlyBuildersAreTakenSilently(s: State, event: Event, s': State, engines: nat -> Engine, p: Ptr)
    requires Legal(s.view, event.call) && Stepped(s, event.call, event.reply, s', engines)
    requires p in Taken(event.call) && p in s.view && p != NULL
    ensures p !in Documented(event) <==>
              event.call.Connections? && event.call.c.Open? && event.call.c.builder == p
                  && !Protocol.Succeeded(event.reply)
    ensures Gone(event, s'.view, p)
  {
    hide Legal, Stepped, Returned, Protocol.Succeeded, Present;
    EveryHandleIsAccountedFor(s, event, s', engines);
  }

  /* ---------- programs that trust the documentation ---------- */

  const REFUSED := Failure(EOther("refused"), "refused")

  /** "On success, the builder is consumed": so this program frees its builder when executing it has failed. */
  function FreeBuilderAfterFailure(): Program {
    (trace: seq<Event>) =>
      if trace == [] then Connections(NewBuilder(Text("db")))
      else if !trace[0].reply.Handle? then Frees(FreeBox(NULL))
      else if |trace| == 1 then Connections(Open(trace[0].reply.p, true, Err(REFUSED), false))
      else Frees(FreeBox(trace[0].reply.p))
  }

  const BUILDER := LeafObj(ConnectBuilder("db", [], None))

  lemma BuilderIsMade(engines: nat -> Engine)
    ensures var call, s := Connections(NewBuilder(Text("db"))), State(map[], map[]);
            Legal(s.view, call) && Stepped(s, call, Handle(1, None), State(map[1 := BUILDER], map[]), engines)
  {
    hide ExprStep, QueryStep, TableStep, FreeStep, LegalExpr, LegalQuery, LegalTable, LegalFree;
    var nothing: View := map[];
    assert nothing[1 := BUILDER] == map[1 := BUILDER];
  }

  lemma BuilderIsTaken(engines: nat -> Engine)
    ensures var call, s := Connections(Open(1, true, Err(REFUSED), false)), State(map[1 := BUILDER], map[]);
            var failed := Reply.Out(Status(ErrorCode.Other, "refused", None), None);
            Legal(s.view, call) && Stepped(s, call, failed, State(map[], map[]), engines)
  {
    hide ExprStep, QueryStep, TableStep, FreeStep, LegalExpr, LegalQuery, LegalTable, LegalFree;
    var held: View := map[1 := BUILDER];
    assert held - {1} == map[];
  }

  /** The builder is gone by then, so the program frees it twice. */
  lemma FreeingABuilderAfterFailureIsIllegal(engines: nat -> Engine)
    ensures !WellBehaved(FreeBuilderAfterFailure(), engines)
  {
    hide Stepped, Legal;
    var program := FreeBuilderAfterFailure();
    var failed := Reply.Out(Status(ErrorCode.Other, "refused", None), None);
    var trace := [Event(program([]), Handle(1, None)), Event(Connections(Open(1, true, Err(REFUSED), false)), failed)];
    var states := [State(map[], map[]), State(map[1 := BUILDER], map[]), State(map[], map[])];
    BuilderIsMade(engines);
    BuilderIsTaken(engines);
    assert StepOf(trace, states, 0, engines) && StepOf(trace, states, 1, engines);
    assert Happened(trace, states, engines);
    assert trace[..0] == [] && trace[..1] == [trace[0]];
    assert Follows(program, trace);
    FreeIsLegal(states[2].view, 1);
    assert !Legal(states[2].view, program(trace));
  }

  /** A program that adds to a NULL table and, as documented, does not free the reader afterwards. */
  function RejectedAdd(): (trace: seq<Event>)
    ensures |trace| == 3
  {
    [ Event(Frees(Host(Buffers(Batch([])))), Handle(1, None)),
      Event(Tables(FromArrow(1, true, true, None, None, false)), Reply.Out(DONE, Some(2))),
      Event(Tables(Add(NULL, 2, None, false)), Reply.Plain(Status(ErrorCode.InvalidArgument, INVALID_ARGUMENT, None))) ]
  }

  /** The reader is still there: the program has leaked it. */
  lemma RejectedAddKeepsTheReader(engines: nat -> Engine) returns (states: seq<State>)
    ensures Happened(RejectedAdd(), states, engines)
    ensures 2 in Documented(RejectedAdd()[2]) && states[3].view == map[2 := ReaderObj(Batch([]))]
  {
    hide ExprStep, QueryStep, ConnectionStep, LegalExpr, LegalQuery, LegalConnection, StringsArg, ExtrasArg,
        ArrowCellsOnly;
    var nothing: View := map[];
    var buffers: View := map[1 := LeafObj(Buffers(Batch([])))];
    var reader: View := map[2 := ReaderObj(Batch([]))];
    states := [State(nothing, map[]), State(buffers, map[]), State(reader, map[]), State(reader, map[])];
    assert nothing[1 := LeafObj(Buffers(Batch([])))] == buffers;
    assert buffers - {1} == nothing && nothing[2 := ReaderObj(Batch([]))] == reader;
  }

  /**
   Importing a reader can fail before it takes the array or after, with one and the same reply: from the
   reply alone no program can tell whether the array is still its own.
   */
  lemma SameReplyEitherWay(s: State, data: Ptr, f: Failure, engines: nat -> Engine)
    requires data != NULL && data in s.view && BuffersArg(s.view, data)
    ensures var reply := Reply.Out(Status(ErrorToErrorCode(f.error), f.rendered, None), None);
            var badSchema := Tables(FromArrow(data, true, true, Some(f), None, false));
            var badArray := Tables(FromArrow(data, true, true, None, Some(f), false));
            && Legal(s.view, badSchema) && Legal(s.view, badArray)
            && Stepped(s, badSchema, reply, s, engines)
            && Stepped(s, badArray, reply, s.(view := s.view - {data}), engines)
  {
    hide ExprStep, QueryStep, ConnectionStep, FreeStep, LegalExpr, LegalQuery, LegalConnection, LegalFree,
        ErrorToErrorCode;
    LibraryErrorsHaveTheirOwnCodes(f.error);
  }
}
