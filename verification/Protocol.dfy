/**
 Whole runs of a C program against the library: memory safety for every well-behaved program, the
 absence of leaks, what each live handle denotes, and the discipline of error messages.
 */
module Protocol {
  import opened Basics
  import opened Exprs
  import opened Objects
  import opened Memory
  import opened HeapModel
  import opened Messages
  import opened JsonMatches
  import opened Requests
  import opened QueryApi
  import opened Marshal
  import opened VersionApi
  import opened TableApi
  import opened MetadataApi
  import opened ConnectionApi
  import opened Calls
  import opened Perform
  import Map = MetadataMap

  datatype Event = Event(call: Calls.Call, reply: Reply)

  /** A program chooses its next call from everything it has seen so far. */
  type Program = seq<Event> -> Calls.Call

  /** Step `i` of a run is a legal call and does what the state machine allows. */
  ghost predicate StepOf(trace: seq<Event>, states: seq<State>, i: nat, engines: nat -> Engine)
    requires |states| == |trace| + 1 && i < |trace|
  {
    var s, event, s' := states[i], trace[i], states[i + 1];
    Legal(s.view, event.call) && Stepped(s, event.call, event.reply, s', engines)
  }

  /** A run of legal calls from an empty heap; `states` are the states between the calls. */
  ghost predicate Happened(trace: seq<Event>, states: seq<State>, engines: nat -> Engine) {
    && |states| == |trace| + 1 && states[0].view == map[]
    && forall i :: 0 <= i < |trace| ==> StepOf(trace, states, i, engines)
  }

  ghost predicate Follows(program: Program, trace: seq<Event>) {
    forall i :: 0 <= i < |trace| ==> trace[i].call == program(trace[..i])
  }

  /** In every situation the program can get into, its next call is legal. */
  ghost predicate WellBehaved(program: Program, engines: nat -> Engine) {
    forall trace: seq<Event>, states: seq<State> ::
      Happened(trace, states, engines) && Follows(program, trace) ==>
          Legal(states[|trace|].view, program(trace))
  }

  lemma HappenedNext(trace: seq<Event>, states: seq<State>, event: Event, s: State, engines: nat -> Engine)
    requires Happened(trace, states, engines) && Legal(states[|trace|].view, event.call)
    requires Stepped(states[|trace|], event.call, event.reply, s, engines)
    ensures Happened(trace + [event], states + [s], engines)
  {
    hide Legal, Stepped;
    var trace', states' := trace + [event], states + [s];
    forall i | 0 <= i < |trace'| ensures StepOf(trace', states', i, engines) {
      assert i < |trace| ==> StepOf(trace, states, i, engines);
    }
  }

  lemma HappenedBefore(trace: seq<Event>, states: seq<State>, engines: nat -> Engine)
    requires Happened(trace, states, engines) && trace != []
    ensures Happened(trace[..|trace| - 1], states[..|trace|], engines)
  {
    hide StepOf;
    HappenedUpTo(trace, states, |trace| - 1, engines);
  }

  lemma HappenedUpTo(trace: seq<Event>, states: seq<State>, n: nat, engines: nat -> Engine)
    requires Happened(trace, states, engines) && n <= |trace|
    ensures Happened(trace[..n], states[..n + 1], engines)
  {
    hide Legal, Stepped;
    var trace', states' := trace[..n], states[..n + 1];
    forall i | 0 <= i < n ensures StepOf(trace', states', i, engines) {
      assert StepOf(trace, states, i, engines);
    }
  }

  lemma FollowsNext(program: Program, trace: seq<Event>, event: Event)
    requires Follows(program, trace) && event.call == program(trace)
    ensures Follows(program, trace + [event])
  {
    var trace' := trace + [event];
    forall i | 0 <= i < |trace'| ensures trace'[i].call == program(trace'[..i]) {
      assert trace'[..i] == if i < |trace| then trace[..i] else trace;
    }
  }

  /** Once the program holds nothing, the heap is empty: nothing it was ever given has leaked. */
  lemma NoLeaks(h: Heap)
    requires h.Ready() && h.View() == map[]
    ensures h.blocks == map[]
  {
    NothingHeldNothingLeft(h.blocks, h.next, h.owner, h.rank, h.obj);
  }

  /** Every block has one owner, of whom it is the only claimant, and lives where its kind is allocated. */
  lemma EveryBlockHasOneOwner(h: Heap)
    requires h.Valid()
    ensures OneOwner(h.blocks, h.owner) && Placed(h.blocks, h.owner)
  {
  }

  /**
   Whole-run safety. Performing the calls of any well-behaved program, for any number of steps and any
   answers of the library and of malloc, never breaks a memory rule; afterwards each block has exactly
   one owner and lives where its kind is allocated, the program holds exactly the handles the state
   machine says, and if it has released all of them the heap is empty.
   */
  method Run(h: Heap, lib: Library, program: Program, n: nat, engines: nat -> Engine)
    returns (trace: seq<Event>, ghost states: seq<State>)
    requires h.Ready() && h.View() == map[] && WellBehaved(program, engines)
    modifies h, lib
    ensures h.Ready() && OneOwner(h.blocks, h.owner) && Placed(h.blocks, h.owner)
    ensures |trace| == n && Happened(trace, states, engines) && Follows(program, trace)
    ensures State(h.View(), lib.datasets) == states[n] && states[0].datasets == old(lib.datasets)
    ensures h.View() == map[] ==> h.blocks == map[]
  {
    hide Forest, Held, StackBlocks, Legal, Stepped, OneOwner, Placed;
    trace, states := [], [State(h.View(), lib.datasets)];
    while |trace| < n
      invariant |trace| <= n && h.Ready()
      invariant Happened(trace, states, engines) && Follows(program, trace)
      invariant State(h.View(), lib.datasets) == states[|trace|] && states[0].datasets == old(lib.datasets)
    {
      var call := program(trace);
      var reply := Perform.Perform(h, lib, call, engines);
      HappenedNext(trace, states, Event(call, reply), State(h.View(), lib.datasets), engines);
      FollowsNext(program, trace, Event(call, reply));
      trace, states := trace + [Event(call, reply)], states + [State(h.View(), lib.datasets)];
    }
    EveryBlockHasOneOwner(h);
    if h.View() == map[] {
      NoLeaks(h);
    }
  }

  /* ---------- two programs ---------- */

  /** Builds a literal, frees it the given number of times, and then frees NULL forever. */
  function BuildThenFree(times: nat): Program {
    (trace: seq<Event>) =>
      if trace == [] then Exprs(MakeLiteral(Bool(true)))
      else if |trace| <= times && trace[0].reply.Handle? then Frees(FreeBox(trace[0].reply.p))
      else Frees(FreeBox(NULL))
  }

  const TRUE_LITERAL := ExprObj(Literal(Bool(true)))

  lemma LiteralIsMade(s: State, reply: Reply, s': State, engines: nat -> Engine)
    requires Stepped(s, Exprs(MakeLiteral(Bool(true))), reply, s', engines)
    ensures reply.Handle? && reply.p != NULL && s'.view == s.view[reply.p := TRUE_LITERAL]
  {
    hide QueryStep, TableStep, ConnectionStep, FreeStep;
    assert s.view - {} == s.view;
  }

  lemma HandleIsFreed(s: State, p: Ptr, reply: Reply, s': State, engines: nat -> Engine)
    requires Stepped(s, Frees(FreeBox(p)), reply, s', engines)
    ensures s'.view == s.view - {p}
  {
    hide ExprStep, QueryStep, TableStep, ConnectionStep;
  }

  lemma FreeIsLegal(view: View, p: Ptr)
    ensures Legal(view, Frees(FreeBox(p))) <==> p == NULL || (p in view && HomeOfObject(view[p]) == InBox)
  {
    hide LegalExpr, LegalQuery, LegalTable, LegalConnection;
  }

  /** Freeing a handle once is fine. */
  lemma FreeingOnceIsWellBehaved(engines: nat -> Engine)
    ensures WellBehaved(BuildThenFree(1), engines)
  {
    hide Stepped, LegalQuery, LegalTable, LegalConnection, LegalFree;
    forall trace: seq<Event>, states: seq<State> | Happened(trace, states, engines) && Follows(BuildThenFree(1), trace)
      ensures Legal(states[|trace|].view, BuildThenFree(1)(trace))
    {
      FreeIsLegal(states[|trace|].view, NULL);
      if |trace| == 1 {
        assert StepOf(trace, states, 0, engines);
        assert trace[0].call == BuildThenFree(1)(trace[..0]);
        LiteralIsMade(states[0], trace[0].reply, states[1], engines);
        FreeIsLegal(states[1].view, trace[0].reply.p);
      }
    }
  }

  /** Two steps of that program from an empty heap leave the heap empty again. */
  method RunBuildThenFree(engines: nat -> Engine) returns (h: Heap)
    ensures h.Ready() && h.blocks == map[]
  {
    hide Forest, Held, StackBlocks, OneOwner, Placed, WellBehaved, Stepped, Legal;
    h := new Heap();
    FreeingOnceIsWellBehaved(engines);
    var trace;
    ghost var states;
    var lib := new Library(map[]);
    trace, states := Run(h, lib, BuildThenFree(1), 2, engines);
    assert trace[..0] == [] && trace[..1] == [trace[0]];
    assert trace[0].call == BuildThenFree(1)([]) && trace[1].call == BuildThenFree(1)([trace[0]]);
    assert StepOf(trace, states, 0, engines) && StepOf(trace, states, 1, engines);
    LiteralIsMade(states[0], trace[0].reply, states[1], engines);
    HandleIsFreed(states[1], trace[0].reply.p, trace[1].reply, states[2], engines);
    assert states[2].view == map[];
  }

  lemma LiteralCanBeMade(engines: nat -> Engine)
    ensures var call, s := Exprs(MakeLiteral(Bool(true))), State(map[], map[]);
            Legal(s.view, call) && Stepped(s, call, Handle(1, None), State(map[1 := TRUE_LITERAL], map[]),
                                                    engines)
  {
    hide QueryStep, TableStep, ConnectionStep, FreeStep, LegalQuery, LegalTable, LegalConnection, LegalFree;
    var nothing: View := map[];
    assert nothing - Consumed(MakeLiteral(Bool(true))) == nothing
        && nothing[1 := TRUE_LITERAL] == map[1 := TRUE_LITERAL];
  }

  lemma LiteralCanBeFreed(engines: nat -> Engine)
    ensures var call, s := Frees(FreeBox(1)), State(map[1 := TRUE_LITERAL], map[]);
            Legal(s.view, call) && Stepped(s, call, Reply.Freed, State(map[], map[]), engines)
  {
    hide ExprStep, QueryStep, TableStep, ConnectionStep, LegalExpr, LegalQuery, LegalTable, LegalConnection;
    var held: View := map[1 := TRUE_LITERAL];
    assert held - {1} == map[];
  }

  /** Freeing it twice is not: after the first free the second one is illegal. */
  lemma FreeingTwiceIsNotWellBehaved(engines: nat -> Engine)
    ensures !WellBehaved(BuildThenFree(2), engines)
  {
    hide Stepped, Legal;
    var program := BuildThenFree(2);
    var trace := [Event(program([]), Handle(1, None)), Event(Frees(FreeBox(1)), Reply.Freed)];
    var states := [State(map[], map[]), State(map[1 := TRUE_LITERAL], map[]), State(map[], map[])];
    LiteralCanBeMade(engines);
    LiteralCanBeFreed(engines);
    assert StepOf(trace, states, 0, engines) && StepOf(trace, states, 1, engines);
    assert Happened(trace, states, engines);
    assert trace[..0] == [] && trace[..1] == [trace[0]];
    assert Follows(program, trace);
    FreeIsLegal(states[2].view, 1);
    assert !Legal(states[2].view, program(trace));
  }

  /* ---------- what one call changes ---------- */

  ghost function MessageOf(reply: Reply): Message {
    match reply
    case Handle(_, msg) => msg
    case Setter(_, msg) => msg
    case Executed(_, _) => None
    case Arrows(a, _, _) => a.msg
    case Flags(m) => m.msg
    case Plain(s) => s.msg
    case Out(s, _) => s.msg
    case Listed(l) => l.status.msg
    case VersionsGot(v) => v.status.msg
    case MetadataGot(m) => m.status.msg
    case Freed => None
  }

  ghost predicate Succeeded(reply: Reply) {
    match reply
    case Handle(p, _) => p != NULL
    case Setter(code, _) => code.Success?
    case Executed(p, _) => p != NULL
    case Arrows(a, _, _) => a.code.Success?
    case Flags(m) => m.code.Success?
    case Plain(s) => s.code.Success?
    case Out(s, _) => s.code.Success?
    case Listed(l) => l.status.code.Success?
    case VersionsGot(v) => v.status.code.Success?
    case MetadataGot(m) => m.status.code.Success?
    case Freed => true
  }

  ghost predicate MakesExpr(event: Event, p: Ptr) {
    event.call.Exprs? && Yields(event.call.e) && event.reply.Handle? && event.reply.p == p
  }

  ghost predicate MakesQuery(event: Event, p: Ptr) {
    event.call.Queries? && event.call.q.NewQuery? && event.reply.Handle? && event.reply.p == p && p != NULL
  }

  ghost predicate SetsQuery(event: Event, p: Ptr) {
    event.call.Queries? && IsSetter(event.call.q) && event.call.q.q == p
  }

  ghost predicate MakesTable(event: Event, p: Ptr) {
    && event.call.Connections? && (event.call.c.CreateTable? || event.call.c.OpenTableCall?)
    && event.reply.Out? && event.reply.status.code.Success? && event.reply.out == Some(p) && event.call.c.table.Ok?
  }

  /** The kinds of handles whose contents later calls read. */
  predicate IsRead(leaf: Leaf) {
    || leaf.ConnectBuilder? || leaf.Session? || leaf.Registry? || leaf.Provider? || leaf.TableNamesBuilder?
    || leaf.Connection? || leaf.QueryResult? || leaf.Buffers?
  }

  ghost predicate MakesLeaf(event: Event, p: Ptr) {
    match event.call
    case Connections(c) =>
      if c.Insert? then c.registry == p && event.reply.Plain? && event.reply.status.code.Success?
      else if c.Open? then event.reply.Out? && event.reply.status.code.Success? && event.reply.out == Some(p)
      else IsBuilderCall(c) && event.reply.Handle? && event.reply.p == p
    case Frees(m) => m.Host? && event.reply.Handle? && event.reply.p == p
    case Queries(q) => q.Execute? && event.reply.Executed? && event.reply.p == p && p != NULL
    case _ => false
  }

  /** Where a handle that was not there before, or denotes something else than before, can come from. */
  ghost predicate ComesFrom(event: Event, o: Object, p: Ptr) {
    && (o.ExprObj? ==> MakesExpr(event, p))
    && (o.QueryObj? ==> MakesQuery(event, p) || SetsQuery(event, p))
    && (o.LeafObj? && o.leaf.Table? ==> MakesTable(event, p) && o.leaf.id == event.call.c.table.value)
    && (o.LeafObj? && IsRead(o.leaf) ==> MakesLeaf(event, p))
    && (o.LeafObj? && o.leaf.CStr? ==> MessageOf(event.reply) == Some(p) && !Succeeded(event.reply))
    && (!Succeeded(event.reply) ==> MessageOf(event.reply) == Some(p))
  }

  /** A message that was delivered is a C string the program now holds. */
  ghost predicate IsDelivered(view': View, msg: Message) {
    msg.Some? && msg.value != NULL ==> msg.value in view' && view'[msg.value].LeafObj? && view'[msg.value].leaf.CStr?
  }

  ghost predicate Changes(view: View, event: Event, view': View) {
    && (Succeeded(event.reply) ==> MessageOf(event.reply) == None)
    && IsDelivered(view', MessageOf(event.reply))
    && forall p :: p in view' ==> (p in view && view[p] == view'[p]) || ComesFrom(event, view'[p], p)
  }

  lemma ExprChanges(view: View, call: ExprCall, reply: Reply, view': View)
    requires reply.Handle? && ExprStep(view, call, view', reply.p, reply.msg)
    ensures Changes(view, Event(Exprs(call), reply), view')
  {
    hide Consumed, TermOf, Yields, HasSlot;
  }

  /** A match adds a buffer, or at most a message. */
  ghost predicate FlagsChange(view: View, view': View, m: MatchesReply) {
    && (m.code.Success? ==> m.msg == None) && IsDelivered(view', m.msg)
    && forall p :: p in view' ==>
         || (p in view && view[p] == view'[p])
         || (m.code.Success? && view'[p].LeafObj? && view'[p].leaf.BoolBuffer?)
         || (!m.code.Success? && m.msg == Some(p) && view'[p].LeafObj? && view'[p].leaf.CStr?)
  }

  lemma MatchesChanges(view: View, call: QueryCall, engine: Engine, view': View, m: MatchesReply)
    requires call.Matches? && MatchesStep(view, call, engine, view', m)
    ensures FlagsChange(view, view', m)
  {
    hide Sum, Lengths, Flat, Buffer, Succeeds, FailsWith;
  }

  lemma QueryChanges(view: View, call: QueryCall, reply: Reply, view': View, engines: nat -> Engine)
    requires QueryStep(view, call, reply, view', engines) && LegalQuery(view, call)
    ensures Changes(view, Event(Queries(call), reply), view')
  {
    hide BatchesArg, SettingOf, Apply, RequestOf, ToArrowStep, MatchesStep, AllText;
    if call.Matches? {
      MatchesChanges(view, call, engines(call.engine), view', reply.matches);
    } else if call.ToArrow? {
      ToArrowChanges(view, call.result, call.hasOutputs, call.schemaError, call.grant, call.slot, view', reply.arrow);
    }
  }

  /** An Arrow conversion adds arrays and a schema, or at most a message. */
  ghost predicate ArrowChanges(view: View, view': View, a: ArrowReply) {
    && (a.code.Success? ==> a.msg == None) && IsDelivered(view', a.msg)
    && forall p :: p in view' ==>
         || (p in view && view[p] == view'[p])
         || (a.code.Success? && (view'[p].ArrayObj? || (view'[p].LeafObj? && view'[p].leaf.Schema?)))
         || (!a.code.Success? && a.msg == Some(p) && view'[p].LeafObj? && view'[p].leaf.CStr?)
  }

  lemma ToArrowChanges(view: View, result: Ptr, hasOutputs: bool, schemaError: Option<string>, grant: bool, slot: bool,
                       view': View, a: ArrowReply)
    requires ToArrowStep(view, result, hasOutputs, schemaError, grant, slot, view', a)
    ensures ArrowChanges(view, view', a)
  {
    hide ArrowCells, Objects.Columns;
    if result != NULL && hasOutputs {
      ConvertedChanges(view - {result}, StreamAt(view, result), schemaError, grant, slot, view', a);
    }
  }

  lemma ConvertedChanges(view: View, stream: Stream, schemaError: Option<string>, grant: bool, slot: bool,
                         view': View, a: ArrowReply)
    requires Converted(view, stream, schemaError, grant, slot, view', a)
    ensures ArrowChanges(view, view', a)
  {
    hide ArrowCells, Objects.Columns;
  }

  lemma TableChanges(s: State, call: TableCall, reply: Reply, view': View)
    requires TableStep(s, call, reply, view')
    ensures Changes(s.view, Event(Tables(call), reply), view')
  {
    hide PlanIn, RequestOf, Requests.After, Converted, NamesStep, VersionsListed, StringCells, VersionApi.Keys, Values,
        AllText, MetadataStep, IsFailure;
    var view := s.view;
    match call
    case Nearest(_, _, _, _, _, _, _, _, _) => NearestChanges(view, call, view', reply.arrow, reply.text,
                                                              reply.request);
    case Metadata(_, _, _, _, _, _) => MetadataChanges(s, call, view', reply.pairs);
    case Indices(t, hasOutputs, names, grant, slot) =>
      NamesChanges(view, t != NULL && hasOutputs, names, grant, slot, view', reply.list);
    case Versions(t, hasOutputs, wantMetadata, versions, refused, slot) =>
      VersionChanges(s, call, view', reply.versions);
    case _ => MovedChanges(s, call, reply, view');
  }

  lemma MovedChanges(s: State, call: TableCall, reply: Reply, view': View)
    requires TableStep(s, call, reply, view')
    requires call.FromArrow? || call.Add? || call.MergeInsert? || call.DfDelete? || call.ChangeEntries?
    ensures Changes(s.view, Event(Tables(call), reply), view')
  {
    hide PlanIn, IsFailure, Map.Acceptable;
  }

  lemma NearestChanges(view: View, call: TableCall, view': View, a: ArrowReply, text: string, request: Option<Request>)
    requires call.Nearest? && NearestStep(view, call, view', a, text, request)
    ensures ArrowChanges(view, view', a)
  {
    hide RequestOf, Requests.After, Converted, IsFailure;
    if request.Some? && call.found.Ok? {
      ConvertedChanges(view, Ok(call.found.value), if call.schemaFails then Some(UNKNOWN_ERROR) else None, call.grant,
                       call.slot, view', a);
    }
  }

  /** A listing adds one array, or at most a message. */
  ghost predicate ListChanges(view: View, view': View, s: Status) {
    && (s.code.Success? ==> s.msg == None) && IsDelivered(view', s.msg)
    && forall p :: p in view' ==>
         || (p in view && view[p] == view'[p])
         || (s.code.Success? && (view'[p].ArrayObj? || view'[p].MetadataObj?
                                 || (view'[p].LeafObj? && view'[p].leaf.VersionBuffer?)))
         || (!s.code.Success? && s.msg == Some(p) && view'[p].LeafObj? && view'[p].leaf.CStr?)
  }

  lemma NamesChanges(left: View, accepted: bool, names: Result<seq<string>, Failure>, grant: bool, slot: bool,
                     view': View, l: ListReply)
    requires NamesStep(left, accepted, names, grant, slot, view', l)
    ensures ListChanges(left, view', l.status)
  {
    hide StringCells, IsFailure, AllNulFree;
  }

  lemma VersionChanges(s: State, call: TableCall, view': View, v: VersionsReply)
    requires call.Versions? && TableStep(s, call, VersionsGot(v), view')
    ensures ListChanges(s.view, view', v.status)
  {
    hide MetadataCells, Counts, Infos, VersionApi.Metadata, IsFailure, ListingGranted;
  }

  lemma MetadataChanges(s: State, call: TableCall, view': View, m: MetadataReply)
    requires call.Metadata? && MetadataStep(s, call, view', m)
    ensures ListChanges(s.view, view', m.status)
  {
    hide StringCells, VersionApi.Keys, Values, AllText, Map.IsOrderOf, Map.Filtered, IsFailure;
    var stored := Stored(Looked(s.datasets, call.table, call.filter, call.hasOutputs, call.backend), call.table);
    var order: seq<string> :| Map.IsOrderOf(order, stored)
      && GetEnded(s.view, stored, Askable(call.table, call.filter, call.hasOutputs), call.filter, call.backend,
                  call.grants, order, call.slot, view', m);
  }

  predicate IsBuilderCall(call: ConnectionCall) {
    || call.NewBuilder? || call.AddOption? || call.UseSession? || call.NewRegistry? || call.NewSession?
       || call.NewNames?
    || call.NamesPage?
  }

  lemma BuilderChanges(view: View, call: ConnectionCall, reply: Reply, view': View)
    requires ConnectionStep(view, call, reply, view') && LegalConnection(view, call) && IsBuilderCall(call)
    ensures Changes(view, Event(Connections(call), reply), view')
  {
    hide NamesStep, IsFailure, CreateTableStep, InsertStep, Opened;
  }

  lemma OpenChanges(view: View, call: ConnectionCall, reply: Reply, view': View)
    requires ConnectionStep(view, call, reply, view') && LegalConnection(view, call)
    requires call.Open? || call.CreateTable? || call.OpenTableCall?
    ensures Changes(view, Event(Connections(call), reply), view')
  {
    hide NamesStep, IsFailure, Replaced, InsertStep, MessageFits;
  }

  lemma InsertChanges(view: View, call: ConnectionCall, reply: Reply, view': View)
    requires ConnectionStep(view, call, reply, view') && LegalConnection(view, call) && call.Insert?
    ensures Changes(view, Event(Connections(call), reply), view')
  {
    hide NamesStep, IsFailure, Replaced, CreateTableStep, Opened;
  }

  lemma ConnectionChanges(view: View, call: ConnectionCall, reply: Reply, view': View)
    requires ConnectionStep(view, call, reply, view') && LegalConnection(view, call)
    ensures Changes(view, Event(Connections(call), reply), view')
  {
    hide NamesStep, IsFailure, CreateTableStep, InsertStep, Opened, Replaced;
    match call
    case Names(c, hasOutputs, parent, names, grant, slot) =>
      NamesChanges(view, c != NULL && hasOutputs && !parent.BadUtf8?, names, grant, slot, view', reply.list);
    case NamesRun(b, hasOutputs, names, grant, slot) =>
      NamesChanges(view - {b}, b != NULL && hasOutputs, names, grant, slot, view', reply.list);
    case _ =>
      if IsBuilderCall(call) {
        BuilderChanges(view, call, reply, view');
      } else if call.Insert? {
        InsertChanges(view, call, reply, view');
      } else {
        OpenChanges(view, call, reply, view');
      }
  }

  /**
   The discipline of handles and messages, for every call: success writes no message; a failure adds at
   most one fresh string, delivered as the message, and nothing else; and a new or changed expression,
   query or table comes from the calls that make one.
   */
  lemma EveryCallChanges(s: State, event: Event, s': State, engines: nat -> Engine)
    requires Legal(s.view, event.call) && Stepped(s, event.call, event.reply, s', engines)
    ensures Changes(s.view, event, s'.view)
  {
    hide LegalExpr, LegalQuery, LegalTable, LegalConnection, ExprStep, QueryStep, TableStep, ConnectionStep, Changes;
    var view, view' := s.view, s'.view;
    match event.call
    case Exprs(e) => ExprChanges(view, e, event.reply, view');
    case Queries(q) => QueryChanges(view, q, event.reply, view', engines);
    case Tables(t) => TableChanges(s, t, event.reply, view');
    case Connections(c) => ConnectionChanges(view, c, event.reply, view');
    case Frees(m) => FreeChanges(view, m, event.reply, view');
  }

  lemma FreeChanges(view: View, call: MemoryCall, reply: Reply, view': View)
    requires FreeStep(view, call, reply, view') && LegalFree(view, call)
    ensures Changes(view, Event(Frees(call), reply), view')
  {
    hide StringsArg, ExtrasArg;
  }

  /**
   Failures leak nothing: whatever call fails, once its message has been released with
   lancedb_free_string (which is then legal) the program holds nothing it did not hold before.
   */
  lemma FailuresLeakNothing(s: State, event: Event, s': State, engines: nat -> Engine)
    requires Legal(s.view, event.call) && Stepped(s, event.call, event.reply, s', engines)
    requires !Succeeded(event.reply)
    ensures var msg := MessageOf(event.reply);
            && (msg.Some? ==> Legal(s'.view, Frees(FreeText(msg.value))))
            && var left := if msg.Some? then s'.view - {msg.value} else s'.view;
               forall p :: p in left ==> p in s.view && left[p] == s.view[p]
    ensures NothingCommitted(s.datasets, event.call, s'.datasets)
  {
    hide LegalExpr, LegalQuery, LegalTable, LegalConnection, Moves, NothingCommitted;
    EveryCallChanges(s, event, s', engines);
    FailuresCommitNothing(s, event, s', engines);
  }

  /** All datasets are the same, except that a metadata call may have made the library find a newer version. */
  ghost predicate NothingCommitted(datasets: Datasets, call: Calls.Call, datasets': Datasets) {
    || datasets' == datasets
    || (call.Tables? && (call.t.Metadata? || call.t.ChangeEntries?) && !call.t.backend.NoDataset?
        && datasets' == Refreshed(datasets, call.t.table, call.t.backend.found))
  }

  lemma FailuresCommitNothing(s: State, event: Event, s': State, engines: nat -> Engine)
    requires Stepped(s, event.call, event.reply, s', engines) && !Succeeded(event.reply)
    ensures NothingCommitted(s.datasets, event.call, s'.datasets)
  {
    hide ExprStep, QueryStep, ConnectionStep, FreeStep, FromArrowStep, NearestStep, MetadataStep, NamesStep,
        VersionsListed, PlanIn, IsFailure, Map.Acceptable, Map.ApplyAll, Ended;
  }

  lemma TextIsFreed(s: State, event: Event, p: Ptr, s': State, engines: nat -> Engine)
    requires Stepped(s, event.call, event.reply, s', engines) && event.call == Frees(FreeText(p))
    ensures s'.view == s.view - {p}
  {
    hide ExprStep, QueryStep, TableStep, ConnectionStep;
  }

  /** From `i` to `j` every call fails, and each message is released right after the call that delivered it. */
  ghost predicate FailsAndTidies(trace: seq<Event>, i: nat, j: nat)
    requires i <= j <= |trace|
    decreases j - i
  {
    || i == j
    || (!Succeeded(trace[i].reply) && MessageOf(trace[i].reply).None? && FailsAndTidies(trace, i + 1, j))
    || (!Succeeded(trace[i].reply) && MessageOf(trace[i].reply).Some? && i + 2 <= j
        && trace[i + 1].call == Frees(FreeText(MessageOf(trace[i].reply).value)) && FailsAndTidies(trace, i + 2, j))
  }

  /**
   Failures never accumulate: at whatever point of a run, after any number of failing calls whose messages have
   been released, the program holds nothing it did not hold before them.
   */
  lemma {:induction false} FailuresNeverAccumulate(trace: seq<Event>, states: seq<State>, engines: nat -> Engine,
                                                   i: nat, j: nat)
    requires Happened(trace, states, engines) && i <= j <= |trace| && FailsAndTidies(trace, i, j)
    ensures forall p :: p in states[j].view ==> p in states[i].view && states[j].view[p] == states[i].view[p]
    decreases j - i
  {
    hide Legal, Stepped;
    if i < j {
      assert StepOf(trace, states, i, engines);
      FailuresLeakNothing(states[i], trace[i], states[i + 1], engines);
      if MessageOf(trace[i].reply).None? {
        FailuresNeverAccumulate(trace, states, engines, i + 1, j);
      } else {
        assert StepOf(trace, states, i + 1, engines);
        TextIsFreed(states[i + 1], trace[i + 1], MessageOf(trace[i].reply).value, states[i + 2], engines);
        FailuresNeverAccumulate(trace, states, engines, i + 2, j);
      }
    }
  }
}
