/** Connections, sessions, registries and table creation (src/connection.rs) on the heap. */
module ConnectionApi {
  import opened Basics
  import opened Objects
  import opened Memory
  import opened HeapModel
  import opened Messages
  import opened Errors
  import opened Marshal
  import opened TableApi

  ghost predicate LeafArg(view: map<Ptr, Object>, p: Ptr) {
    p == NULL || (p in view && view[p].LeafObj?)
  }

  ghost predicate BuilderArg(view: map<Ptr, Object>, b: Ptr) {
    LeafArg(view, b) && (b != NULL ==> view[b].leaf.ConnectBuilder?)
  }

  ghost predicate ConnectionArg(view: map<Ptr, Object>, c: Ptr) {
    LeafArg(view, c) && (c != NULL ==> view[c].leaf.Connection?)
  }

  ghost predicate SessionArg(view: map<Ptr, Object>, s: Ptr) {
    LeafArg(view, s) && (s != NULL ==> view[s].leaf.Session?)
  }

  ghost predicate RegistryArg(view: map<Ptr, Object>, r: Ptr) {
    LeafArg(view, r) && (r != NULL ==> view[r].leaf.Registry?)
  }

  ghost predicate ProviderArg(view: map<Ptr, Object>, p: Ptr) {
    LeafArg(view, p) && (p != NULL ==> view[p].leaf.Provider?)
  }

  ghost predicate NamesArg(view: map<Ptr, Object>, b: Ptr) {
    LeafArg(view, b) && (b != NULL ==> view[b].leaf.TableNamesBuilder?)
  }

  ghost function LeafAt(view: map<Ptr, Object>, p: Ptr): Leaf {
    if p != NULL && p in view && view[p].LeafObj? then view[p].leaf else CStr("")
  }

  /** A constructor of a handle: NULL, or a fresh box with the given contents. */
  ghost predicate Made(view: map<Ptr, Object>, leaf: Leaf, view': map<Ptr, Object>, p: Ptr) {
    p != NULL && p !in view && view' == view[p := LeafObj(leaf)]
  }

  /* ---------- connect builders ---------- */

  /** lancedb_connect. */
  method Connect(h: Heap, uri: CArg) returns (b: Ptr)
    requires h.Ready()
    modifies h
    ensures h.Ready() && (b != NULL <==> uri.Text?)
    ensures b == NULL ==> h.View() == old(h.View())
    ensures b != NULL ==> Made(old(h.View()), ConnectBuilder(uri.text, [], None), h.View(), b)
  {
    hide Forest, Held, StackBlocks;
    if uri.NullArg? || uri.BadUtf8? {
      return NULL;
    }
    b := h.LeafNew(ConnectBuilder(uri.text, [], None));
  }

  /** Consumes a boxed value that owns nothing. */
  method TakeLeaf(h: Heap, p: Ptr) returns (leaf: Leaf)
    requires h.Ready() && p in h.View() && h.View()[p].LeafObj? && HomeOfLeaf(h.View()[p].leaf) == InBox
    modifies h
    ensures h.Ready() && h.View() == old(h.View()) - {p} && leaf == LeafAt(old(h.View()), p)
  {
    hide Forest, Held, StackBlocks, HomeOfLeaf, Felled, TreeDropped;
    h.HeldAreLive();
    leaf := h.ReadLeaf(p);
    h.DropValue(p);
  }

  function WithOption(builder: Leaf, key: string, value: string): Leaf {
    if builder.ConnectBuilder? then builder.(options := builder.options + [(key, value)]) else builder
  }

  /** lancedb_connect_builder_storage_option: the builder is consumed even if the strings are rejected. */
  method StorageOption(h: Heap, builder: Ptr, key: CArg, value: CArg) returns (b: Ptr)
    requires h.Ready() && BuilderArg(h.View(), builder)
    modifies h
    ensures h.Ready() && (b != NULL <==> builder != NULL && key.Text? && value.Text?)
    ensures b == NULL ==> h.View() == old(h.View()) - {builder}
    ensures b != NULL ==>
              Made(old(h.View()) - {builder}, WithOption(LeafAt(old(h.View()), builder), key.text, value.text),
                   h.View(), b)
    ensures b != NULL ==>
              var held := old(h.View())[builder].leaf;
              h.View()[b].leaf == ConnectBuilder(held.uri, held.options + [(key.text, value.text)], held.session)
  {
    hide Forest, Held, StackBlocks;
    h.HeldAreLive();
    if builder == NULL {
      return NULL;
    }
    var leaf := TakeLeaf(h, builder);
    if !key.Text? || !value.Text? {
      return NULL;
    }
    b := h.LeafNew(leaf.(options := leaf.options + [(key.text, value.text)]));
  }

  function WithSession(builder: Leaf, session: Leaf): Leaf {
    if builder.ConnectBuilder? && session.Session? then builder.(session := Some(session.providers)) else builder
  }

  /** lancedb_connect_builder_session: the session is shared, not consumed; NULL leaves the builder as it was. */
  method BuilderSession(h: Heap, builder: Ptr, session: Ptr) returns (b: Ptr)
    requires h.Ready() && BuilderArg(h.View(), builder) && SessionArg(h.View(), session)
    modifies h
    ensures h.Ready() && (b != NULL <==> builder != NULL)
    ensures b == NULL ==> h.View() == old(h.View())
    ensures b != NULL ==>
              Made(old(h.View()) - {builder}, WithSession(LeafAt(old(h.View()), builder),
                                                          LeafAt(old(h.View()), session)), h.View(), b)
    ensures b != NULL ==>
              var held := old(h.View())[builder].leaf;
              var shared := if session == NULL then held.session else Some(old(h.View())[session].leaf.providers);
              h.View()[b].leaf == ConnectBuilder(held.uri, held.options, shared)
  {
    hide Forest, Held, StackBlocks;
    h.HeldAreLive();
    if builder == NULL {
      return NULL;
    }
    var leaf := TakeLeaf(h, builder);
    h.HeldAreLive();
    if session != NULL {
      var shared := h.ReadLeaf(session);
      leaf := leaf.(session := Some(shared.providers));
    }
    b := h.LeafNew(leaf);
  }

  function ErrorOf<T>(outcome: Result<T, Failure>): Option<Failure> {
    if outcome.Err? then Some(outcome.error) else None
  }

  /** How a call that returns one new handle through an out-pointer ended. */
  ghost predicate Opened(view: map<Ptr, Object>, slot: bool, leaf: Leaf, view': map<Ptr, Object>, s: Status,
                         out: Option<Ptr>) {
    if s.code.Success? then s == DONE && out.Some? && Made(view, leaf, view', out.value)
    else out == None && Ended(view, slot, s, view')
  }

  /** lancedb_connect_builder_execute: the builder is consumed even if the out-pointer is NULL. */
  method BuilderExecute(h: Heap, builder: Ptr, hasOut: bool, outcome: Result<nat, Failure>, slot: bool)
    returns (s: Status, out: Option<Ptr>, sent: Option<Leaf>)
    requires h.Ready() && BuilderArg(h.View(), builder)
    modifies h
    ensures h.Ready()
    ensures Opened(old(h.View()) - {builder}, slot, Leaf.Connection(if outcome.Ok? then outcome.value else 0), h.View(),
                   s, out)
    ensures Concluded(s, builder != NULL && hasOut, ErrorOf(outcome))
    ensures sent == if builder != NULL && hasOut then Some(old(h.View())[builder].leaf) else None
    ensures s.code.Success? ==> outcome.Ok? && h.View()[out.value].leaf == Leaf.Connection(outcome.value)
  {
    hide Forest, Held, StackBlocks, Ended, IsFailure;
    h.HeldAreLive();
    out, sent := None, None;
    if builder == NULL {
      assert h.View() == h.View() - {builder};
      s := RejectCall(h, slot);
      return;
    }
    var leaf := TakeLeaf(h, builder);
    if !hasOut {
      s := RejectCall(h, slot);
      return;
    }
    sent := Some(leaf);
    match outcome
    case Err(f) => s := HandleError(h, slot, f);
    case Ok(id) =>
      var c := h.LeafNew(Leaf.Connection(id));
      s, out := DONE, Some(c);
  }

  /* ---------- sessions and registries ---------- */

  /** lancedb_registry_new; `defaults` are the providers every registry starts with. */
  method RegistryNew(h: Heap, defaults: Providers) returns (r: Ptr)
    requires h.Ready()
    modifies h
    ensures h.Ready() && Made(old(h.View()), Registry(defaults), h.View(), r)
  {
    r := h.LeafNew(Registry(defaults));
  }

  function SessionOver(registry: Leaf, defaults: Providers): Leaf {
    Leaf.Session(if registry.Registry? then registry.providers else defaults)
  }

  /** lancedb_session_new (registry NULL) and lancedb_session_new_with_registry, which consumes the registry. */
  method SessionNew(h: Heap, registry: Ptr, defaults: Providers) returns (session: Ptr)
    requires h.Ready() && RegistryArg(h.View(), registry)
    modifies h
    ensures h.Ready()
    ensures Made(old(h.View()) - {registry}, SessionOver(LeafAt(old(h.View()), registry), defaults), h.View(), session)
    ensures h.View()[session].leaf ==
              Leaf.Session(if registry == NULL then defaults else old(h.View())[registry].leaf.providers)
  {
    hide Forest, Held, StackBlocks;
    h.HeldAreLive();
    var providers := defaults;
    if registry != NULL {
      var leaf := TakeLeaf(h, registry);
      providers := leaf.providers;
    }
    session := h.LeafNew(Leaf.Session(providers));
  }

  const BAD_SCHEME := "Invalid URL scheme string"
  const NO_PROVIDER := "LanceDBObjectStoreProvider is not initialized"

  function WithProvider(registry: Leaf, scheme: string, provider: Leaf): Leaf {
    if registry.Registry? && provider.Provider? && provider.inner.Some?
    then registry.(providers := registry.providers[scheme := provider.inner.value]) else registry
  }

  /** lancedb_registry_insert_provider: the provider is consumed only once the scheme has been read. */
  method InsertProvider(h: Heap, registry: Ptr, scheme: CArg, provider: Ptr, slot: bool) returns (s: Status)
    requires h.Ready() && RegistryArg(h.View(), registry) && ProviderArg(h.View(), provider)
    modifies h
    ensures h.Ready()
    ensures var present := registry != NULL && !scheme.NullArg? && provider != NULL;
            var taken := present && scheme.Text?;
            var left := if taken then old(h.View()) - {provider} else old(h.View());
            var inner := LeafAt(old(h.View()), provider);
            && (s.code.Success? <==> taken && inner.Provider? && inner.inner.Some?)
            && (s.code.Success? ==>
                  s == DONE && h.View() == left[registry := LeafObj(WithProvider(LeafAt(old(h.View()), registry),
                                                                                 scheme.text, inner))]
                  && h.View()[registry].leaf ==
                     Registry(old(h.View())[registry].leaf.providers
                              [scheme.text := old(h.View())[provider].leaf.inner.value]))
            && (!s.code.Success? ==> Ended(left, slot, s, h.View()))
            && (!present ==> IsInvalidArgument(s))
            && (present && scheme.BadUtf8? ==> s.code == ErrorCode.InvalidInput && s.text == BAD_SCHEME)
            && (taken && !s.code.Success? ==> s.code == ErrorCode.InvalidArgument && s.text == NO_PROVIDER)
  {
    hide Forest, Held, StackBlocks, Ended;
    h.HeldAreLive();
    if registry == NULL || scheme.NullArg? || provider == NULL {
      s := RejectCall(h, slot);
      return;
    }
    if scheme.BadUtf8? {
      s := Fail(h, slot, ErrorCode.InvalidInput, BAD_SCHEME);
      return;
    }
    var taken := TakeLeaf(h, provider);
    if taken.inner.None? {
      s := Fail(h, slot, ErrorCode.InvalidArgument, NO_PROVIDER);
      return;
    }
    h.HeldAreLive();
    var leaf := h.ReadLeaf(registry);
    h.StoreLeaf(registry, leaf.(providers := leaf.providers[scheme.text := taken.inner.value]));
    s := DONE;
  }

  /* ---------- tables ---------- */

  const BAD_SCHEMA := EInvalidInput("Failed to import Arrow schema from C ABI")

  /** The first thing that goes wrong when a table is created: its schema, its name, or the creation itself. */
  function CreationFailure(schemaError: Option<string>, nameError: Option<Failure>,
                           outcome: Result<TableId, Failure>): Option<Failure> {
    if schemaError.Some? then Some(Failure(BAD_SCHEMA, schemaError.value))
    else if nameError.Some? then nameError
    else if outcome.Err? then Some(outcome.error)
    else None
  }

  /** The text of a failed schema import does not look like that of a failed connection to a namespace. */
  lemma BadSchemaIsInvalidInput()
    ensures ErrorToErrorCode(BAD_SCHEMA) == ErrorCode.InvalidInput
  {
    var text, marker := BAD_SCHEMA.text, NAMESPACE_CONNECT_FAILED;
    assert |text| == 40 && |marker| == 31;
    forall i | 0 <= i <= |text| - |marker| ensures !MatchesAt(text, marker, i) {
      assert marker[0] == 'F' && marker[10] == 'c';
      assert text[0] == 'F' && text[10] == 'i';
      assert i > 0 ==> text[i] != 'F';
    }
  }

  /** What a creation with accepted arguments reports: the first thing that goes wrong, if any. */
  lemma CreationsReport(s: Status, schemaError: Option<string>, nameError: Option<Failure>,
                        outcome: Result<TableId, Failure>)
    requires Concluded(s, true, CreationFailure(schemaError, nameError, outcome))
    ensures if schemaError.Some? then s.code == ErrorCode.InvalidInput && s.text == schemaError.value
            else if nameError.Some? then Reports(s.code, nameError.value.error) && s.text == nameError.value.rendered
            else if outcome.Err? then Reports(s.code, outcome.error.error) && s.text == outcome.error.rendered
            else s.code == ErrorCode.Success
    ensures schemaError.Some? || nameError.Some? || outcome.Err? ==> s.code != ErrorCode.Success
  {
    ConcludedCallsReport(s, true, CreationFailure(schemaError, nameError, outcome));
    BadSchemaIsInvalidInput();
    CodesOfErrors(BAD_SCHEMA, s.code);
    CodesOfErrors(BAD_SCHEMA, ErrorCode.InvalidInput);
    hide Contains, ContainsAny;
  }

  /**
   lancedb_table_create: the reader is consumed once the schema has been imported, that is before the
   name is validated; earlier failures leave it with the caller. `schemaError` is the text that error
   renders to, and `sent` is what create_table received.
   */
  method TableCreate(h: Heap, connection: Ptr, name: CArg, hasSchema: bool, reader: Ptr, hasOut: bool,
                     schemaError: Option<string>,
                     nameError: Option<Failure>, outcome: Result<TableId, Failure>, slot: bool)
    returns (s: Status, out: Option<Ptr>, sent: Option<seq<Batch>>)
    requires h.Ready() && ConnectionArg(h.View(), connection) && ReaderArg(h.View(), reader)
    modifies h
    ensures h.Ready()
    ensures var accepted := connection != NULL && name.Text? && hasSchema && hasOut;
            var left := if accepted && schemaError.None? then old(h.View()) - {reader} else old(h.View());
            var failure := CreationFailure(schemaError, nameError, outcome);
            && Opened(left, slot, Table(if outcome.Ok? then outcome.value else 0), h.View(), s, out)
            && Concluded(s, accepted, failure)
            && (failure.None? <==> schemaError.None? && nameError.None? && outcome.Ok?)
            && (s.code.Success? ==> outcome.Ok? && h.View()[out.value].leaf == Table(outcome.value))
            && sent == (if accepted && schemaError.None? && nameError.None?
                        then Some(if reader == NULL then [] else [old(h.View())[reader].batch]) else None)
  {
    hide Forest, Held, StackBlocks, Ended, IsFailure;
    h.HeldAreLive();
    out, sent := None, None;
    if connection == NULL || !name.Text? || !hasSchema || !hasOut {
      s := RejectCall(h, slot);
      return;
    }
    if schemaError.Some? {
      s := HandleError(h, slot, Failure(BAD_SCHEMA, schemaError.value));
      return;
    }
    var batches := [];
    if reader != NULL {
      batches := TakeReader(h, reader);
    }
    assert h.View() == old(h.View()) - {reader};
    if nameError.Some? {
      s := HandleError(h, slot, nameError.value);
      return;
    }
    sent := Some(batches);
    match outcome
    case Err(f) => s := HandleError(h, slot, f);
    case Ok(id) =>
      var t := h.LeafNew(Table(id));
      s, out := DONE, Some(t);
  }

  /** lancedb_connection_open_table. */
  method OpenTable(h: Heap, connection: Ptr, name: CArg, hasOut: bool, outcome: Result<TableId, Failure>, slot: bool)
    returns (s: Status, out: Option<Ptr>)
    requires h.Ready() && ConnectionArg(h.View(), connection)
    modifies h
    ensures h.Ready()
    ensures var accepted := connection != NULL && name.Text? && hasOut;
            && Opened(old(h.View()), slot, Table(if outcome.Ok? then outcome.value else 0), h.View(), s, out)
            && (s.code.Success? ==> outcome.Ok? && h.View()[out.value].leaf == Table(outcome.value))
            && Concluded(s, accepted, ErrorOf(outcome))
  {
    hide Forest, Held, StackBlocks, Ended, IsFailure;
    out := None;
    if connection == NULL || !name.Text? || !hasOut {
      s := RejectCall(h, slot);
      return;
    }
    match outcome
    case Err(f) => s := HandleError(h, slot, f);
    case Ok(id) =>
      var t := h.LeafNew(Table(id));
      s, out := DONE, Some(t);
  }

  /* ---------- listings ---------- */

  /** lancedb_connection_table_names and, with a parent name, lancedb_connection_list_namespaces. */
  method ListNames(h: Heap, connection: Ptr, hasOutputs: bool, parent: CArg, outcome: Result<seq<string>, Failure>,
                   grant: bool, slot: bool) returns (reply: ListReply)
    requires h.Ready() && ConnectionArg(h.View(), connection)
    modifies h
    ensures h.Ready()
    ensures var accepted := connection != NULL && hasOutputs && !parent.BadUtf8?;
            && (!accepted ==>
                  IsInvalidArgument(reply.status) && Unlisted(old(h.View()), slot, h.View(), reply)
                      && reply.count == None)
            && (accepted ==> Listing(old(h.View()), outcome, grant, slot, h.View(), reply))
  {
    hide Forest, Held, StackBlocks, Ended, Listing;
    if connection == NULL || !hasOutputs || parent.BadUtf8? {
      var status := RejectCall(h, slot);
      return ListReply(status, None, None);
    }
    reply := ReturnStrings(h, outcome, grant, slot);
  }

  /** lancedb_connection_table_names_builder. */
  method NamesBuilder(h: Heap, connection: Ptr) returns (b: Ptr)
    requires h.Ready() && ConnectionArg(h.View(), connection)
    modifies h
    ensures h.Ready() && (b != NULL <==> connection != NULL)
    ensures b == NULL ==> h.View() == old(h.View())
    ensures b != NULL ==>
              && LeafAt(old(h.View()), connection).Connection?
              && Made(old(h.View()), TableNamesBuilder(old(h.View())[connection].leaf.id, None, None), h.View(), b)
  {
    hide Forest, Held, StackBlocks;
    h.HeldAreLive();
    if connection == NULL {
      return NULL;
    }
    var leaf := h.ReadLeaf(connection);
    b := h.LeafNew(TableNamesBuilder(leaf.id, None, None));
  }

  /** A page setting of a table names builder: a limit, or a name to start after. */
  datatype Page = PageLimit(n: nat) | PageAfter(name: CArg)

  predicate PageReadable(page: Page) {
    page.PageAfter? ==> page.name.Text?
  }

  function WithPage(builder: Leaf, page: Page): Leaf {
    if !builder.TableNamesBuilder? || !PageReadable(page) then builder
    else if page.PageLimit? then builder.(limit := Some(page.n))
    else builder.(startAfter := Some(page.name.text))
  }

  /** lancedb_table_names_builder_limit and _start_after: the builder is consumed even if the name is rejected. */
  method SetPage(h: Heap, builder: Ptr, page: Page) returns (b: Ptr)
    requires h.Ready() && NamesArg(h.View(), builder)
    modifies h
    ensures h.Ready() && (b != NULL <==> builder != NULL && PageReadable(page))
    ensures b == NULL ==> h.View() == old(h.View()) - {builder}
    ensures b != NULL ==> Made(old(h.View()) - {builder}, WithPage(LeafAt(old(h.View()), builder), page), h.View(), b)
    ensures b != NULL ==>
              var held := old(h.View())[builder].leaf;
              h.View()[b].leaf ==
                match page
                case PageLimit(n) => TableNamesBuilder(held.connection, Some(n), held.startAfter)
                case PageAfter(name) => TableNamesBuilder(held.connection, held.limit, Some(name.text))
  {
    hide Forest, Held, StackBlocks;
    h.HeldAreLive();
    if builder == NULL {
      return NULL;
    }
    var leaf := TakeLeaf(h, builder);
    match page
    case PageLimit(n) => b := h.LeafNew(leaf.(limit := Some(n)));
    case PageAfter(name) =>
      if !name.Text? {
        return NULL;
      }
      b := h.LeafNew(leaf.(startAfter := Some(name.text)));
  }

  /** lancedb_table_names_builder_execute: the builder is consumed even if an out-pointer is NULL. */
  method NamesExecute(h: Heap, builder: Ptr, hasOutputs: bool, outcome: Result<seq<string>, Failure>, grant: bool,
                      slot: bool)
    returns (reply: ListReply, sent: Option<Leaf>)
    requires h.Ready() && NamesArg(h.View(), builder)
    modifies h
    ensures h.Ready()
    ensures sent == if builder != NULL && hasOutputs then Some(old(h.View())[builder].leaf) else None
    ensures sent.None? ==>
              && IsInvalidArgument(reply.status) && reply.count == None
              && Unlisted(old(h.View()) - {builder}, slot, h.View(), reply)
    ensures sent.Some? ==> Listing(old(h.View()) - {builder}, outcome, grant, slot, h.View(), reply)
  {
    hide Forest, Held, StackBlocks, Ended, Listing;
    h.HeldAreLive();
    if builder == NULL {
      assert h.View() == h.View() - {builder};
      var status := RejectCall(h, slot);
      return ListReply(status, None, None), None;
    }
    var leaf := TakeLeaf(h, builder);
    if !hasOutputs {
      var status := RejectCall(h, slot);
      return ListReply(status, None, None), None;
    }
    reply := ReturnStrings(h, outcome, grant, slot);
    sent := Some(leaf);
  }
}
