/** Table metadata through the C interface (src/table.rs): set, delete and get, on the heap and in the library. */
module MetadataApi {
  import opened Basics
  import opened Objects
  import opened Memory
  import opened HeapModel
  import opened Messages
  import opened Errors
  import opened QueryApi
  import opened Marshal
  import opened VersionApi
  import Map = MetadataMap

  /* ---------- what the library stores ---------- */

  /**
   The metadata in the dataset behind each table handle. Every handle has a dataset of its own: what another
   handle of the same table commits shows up in it only when the library looks for a newer version.
   */
  type Datasets = map<Ptr, Map.Entries>

  /** The metadata in the dataset of a table handle. */
  function Stored(datasets: Datasets, table: Ptr): Map.Entries {
    if table in datasets then datasets[table] else map[]
  }

  /** The datasets after the library has looked for a newer version for a handle, and perhaps found one. */
  function Refreshed(datasets: Datasets, table: Ptr, found: Option<Map.Entries>): Datasets {
    if found.Some? then datasets[table := found.value] else datasets
  }

  /** The library's side: one dataset per table handle, replaced as a whole when a commit succeeds. */
  class Library {
    var datasets: Datasets

    constructor (initial: Datasets)
      ensures datasets == initial
    {
      datasets := initial;
    }

    /** A table handle is given out; `stored` is what its table holds. */
    method Open(table: Ptr, stored: Map.Entries)
      modifies this
      ensures datasets == old(datasets)[table := stored]
    {
      datasets := datasets[table := stored];
    }

    /** `ds.get()`: the handle's dataset, or a newer version that has been found. */
    method Get(table: Ptr, found: Option<Map.Entries>) returns (m: Map.Entries)
      modifies this
      ensures datasets == Refreshed(old(datasets), table, found) && m == Stored(datasets, table)
    {
      if found.Some? {
        datasets := datasets[table := found.value];
      }
      m := Stored(datasets, table);
    }

    /**
     `update_metadata` on a copy of the dataset. The library may fail before any entry, or when it commits
     after all of them: `failsAt` counts the entries it gets through. The copy then is simply dropped.
     */
    method Update(table: Ptr, us: seq<Map.Update>, failsAt: Option<nat>) returns (ok: bool)
      modifies this
      ensures ok <==> failsAt.None?
      ensures datasets ==
                if ok then old(datasets)[table := Map.ApplyAll(Stored(old(datasets), table), us)] else old(datasets)
    {
      ghost var before := Stored(datasets, table);
      var copy := Stored(datasets, table);
      var i := 0;
      assert us[..0] == [];
      while i < |us| && failsAt != Some(i)
        invariant i <= |us| && copy == Map.ApplyAll(before, us[..i])
        modifies {}
      {
        assert us[..i + 1][..i] == us[..i];
        copy := if us[i].value.Some? then copy[us[i].key := us[i].value.value] else copy - {us[i].key};
        i := i + 1;
      }
      if failsAt.Some? {
        return false;
      }
      assert us[..i] == us;
      datasets := datasets[table := copy];
      ok := true;
    }
  }

  /**
   What the library does with a metadata call: whether the table has a dataset, the newer version it finds,
   if any, and whether it refuses the call. A refused commit may have got through some entries.
   */
  datatype Backend = NoDataset | Refuses(f: Failure, found: Option<Map.Entries>, failsAt: nat)
                   | Accepts(found: Option<Map.Entries>)

  /** The datasets after a change: all of the entries of an accepted call are applied, or none. */
  function Changed(datasets: Datasets, table: Ptr, call: Map.MetadataCall, backend: Backend): Datasets {
    if table == NULL || !Map.Acceptable(call) || backend.NoDataset? then datasets
    else
      var seen := Refreshed(datasets, table, backend.found);
      if backend.Accepts? then seen[table := Map.ApplyAll(Stored(seen, table), Map.UpdatesOf(call))] else seen
  }

  /** The code and text of a change of metadata. */
  predicate ChangeConcluded(s: Status, accepted: bool, backend: Backend) {
    if !accepted then IsInvalidArgument(s)
    else
      match backend
      case NoDataset => s.code == ErrorCode.NotSupported && s.text == NOT_SUPPORTED
      case Refuses(f, _, _) => IsFailure(s, f) && !s.code.Success?
      case Accepts(_) => s.code.Success?
  }

  /** lancedb_table_set_metadata and lancedb_table_delete_metadata: all of the entries are committed, or none. */
  method ChangeMetadata(h: Heap, lib: Library, table: Ptr, call: Map.MetadataCall, backend: Backend, slot: bool)
    returns (s: Status)
    requires h.Ready() && TableArg(h.View(), table) && Map.InBounds(call)
    modifies h, lib
    ensures h.Ready() && Ended(old(h.View()), slot, s, h.View())
    ensures ChangeConcluded(s, table != NULL && Map.Acceptable(call), backend)
    ensures lib.datasets == Changed(old(lib.datasets), table, call, backend)
  {
    hide Forest, Held, StackBlocks, Ended, IsFailure, Map.Acceptable, Home, HomeOfObject, Stored, Map.UpdatesOf, Reports, Refreshed, RolledBack;
    h.HeldAreLive();
    if table == NULL || call.keys.None? || (call.SetCall? && call.values.None?) || call.count == 0 {
      Missing(call);
      s := RejectCall(h, slot);
      return;
    }
    var us := Map.ReadUpdates(call);
    if us.None? {
      s := RejectCall(h, slot);
      return;
    }
    match backend
    case NoDataset => s := Fail(h, slot, ErrorCode.NotSupported, NOT_SUPPORTED);
    case Refuses(f, found, n) =>
      var m := lib.Get(table, found);
      var ok := lib.Update(table, us.value, Some(n));
      s := HandleError(h, slot, f);
    case Accepts(found) =>
      var m := lib.Get(table, found);
      var ok := lib.Update(table, us.value, None);
      s := DONE;
      EndedWell(h.View(), slot);
  }

  /**
   A change is rejected exactly for a missing array, no entries, or a string that is NULL or not UTF-8; otherwise it
   reports what the library answered.
   */
  lemma RejectedChanges(s: Status, table: Ptr, call: Map.MetadataCall, backend: Backend)
    requires Map.InBounds(call) && ChangeConcluded(s, table != NULL && Map.Acceptable(call), backend)
    ensures s.code.InvalidArgument? <==>
              || table == NULL || call.keys.None? || (call.SetCall? && call.values.None?) || call.count == 0
              || exists i :: 0 <= i < call.count &&
                   (!call.keys.value[i].Text? || (call.SetCall? && !call.values.value[i].Text?))
    ensures s.code.InvalidArgument? ||
            match backend
            case NoDataset => s.code == ErrorCode.NotSupported && s.text == "Not supported"
            case Refuses(f, _, _) => s.code != ErrorCode.Success && Reports(s.code, f.error) && s.text == f.rendered
            case Accepts(_) => s.code == ErrorCode.Success
  {
    hide ErrorToErrorCode, Reports;
    if backend.Refuses? {
      LibraryErrorsHaveTheirOwnCodes(backend.f.error);
      FailuresReportTheirCode(s, backend.f);
    }
  }

  lemma EndedWell(view: map<Ptr, Object>, slot: bool)
    ensures Ended(view, slot, DONE, view)
  {
  }

  lemma Missing(call: Map.MetadataCall)
    ensures call.keys.None? || (call.SetCall? && call.values.None?) || call.count == 0 ==> !Map.Acceptable(call)
  {
  }

  /* ---------- get ---------- */

  /** The filter of a get call: everything for a NULL pointer with count zero. */
  datatype FilterArg = Everything | NullWithCount | Keys(keys: seq<CArg>)

  datatype MetadataReply = MetadataReply(status: Status, keys: Option<Ptr>, values: Option<Ptr>, count: Option<nat>)

  predicate Readable(filter: FilterArg) {
    filter.Keys? ==> AllText(filter.keys)
  }

  /** The entries a get call returns; `order` is the order in which the map is iterated over. */
  function Selected(m: Map.Entries, filter: FilterArg, order: seq<string>): Entries
    requires Readable(filter)
  {
    Map.Filtered(m, if filter.Keys? then Texts(filter.keys) else order)
  }

  /** The pairs are the entries of the map, each of them once. */
  ghost predicate ListsAll(pairs: Entries, m: Map.Entries) {
    && (forall i, j :: 0 <= i < j < |pairs| ==> pairs[i] != pairs[j])
    && (forall key, value :: (key, value) in pairs <==> key in m && m[key] == value)
  }

  /** The pairs are the entries at those positions of the filter whose keys the map has, in the order of the filter. */
  ghost predicate ListsKeys(pairs: Entries, keys: seq<CArg>, m: Map.Entries) {
    exists at: seq<nat> :: PicksAt(at, pairs, keys, m)
  }

  predicate PicksAt(at: seq<nat>, pairs: Entries, keys: seq<CArg>, m: Map.Entries) {
    && |at| == |pairs| && (forall i, j :: 0 <= i < j < |at| ==> at[i] < at[j])
    && (forall i :: 0 <= i < |at| ==> at[i] < |keys| && keys[at[i]].Text? && keys[at[i]].text in m
                                      && pairs[i] == (keys[at[i]].text, m[keys[at[i]].text]))
    && (forall k :: 0 <= k < |keys| && keys[k].Text? && keys[k].text in m ==> k in at)
  }

  /** What a get lists: the keys asked for, or everything. */
  ghost predicate Lists(pairs: Entries, filter: FilterArg, m: Map.Entries) {
    if filter.Keys? then ListsKeys(pairs, filter.keys, m) else ListsAll(pairs, m)
  }

  lemma SelectedLists(m: Map.Entries, filter: FilterArg, order: seq<string>)
    requires Readable(filter) && Map.IsOrderOf(order, m)
    ensures Lists(Selected(m, filter, order), filter, m)
  {
    hide Map.Filtered, Map.IsOrderOf;
    if filter.Keys? {
      var at := Map.FilteredPicks(m, Texts(filter.keys));
      assert PicksAt(at, Selected(m, filter, order), filter.keys, m);
    } else {
      Map.UnfilteredIsPermutation(m, order);
    }
  }

  /** Looks the filter keys up one by one; None at the first that is NULL or not UTF-8. */
  method CollectEntries(m: Map.Entries, keys: seq<CArg>) returns (r: Option<Entries>)
    ensures r.Some? <==> AllText(keys)
    ensures r.Some? ==> r.value == Map.Filtered(m, Texts(keys))
  {
    var result: Entries := [];
    var i := 0;
    assert Texts(keys[..0]) == [];
    while i < |keys|
      invariant i <= |keys| && AllText(keys[..i]) && result == Map.Filtered(m, Texts(keys[..i]))
    {
      if !keys[i].Text? {
        return None;
      }
      var key: string := keys[i].text;
      assert Texts(keys[..i + 1])[..i] == Texts(keys[..i]);
      if key in m {
        result := result + [(key, m[key])];
      }
      i := i + 1;
    }
    assert keys[..i] == keys;
    r := Some(result);
  }

  /** Iterates over a hash map, in whatever order it likes. */
  method AllEntries(m: Map.Entries) returns (es: Entries, ghost order: seq<string>)
    ensures Map.IsOrderOf(order, m) && es == Map.Filtered(m, order)
  {
    es, order := [], [];
    var left := m.Keys;
    while left != {}
      invariant left <= m.Keys && es == Map.Filtered(m, order)
      invariant forall i, j :: 0 <= i < j < |order| ==> order[i] != order[j]
      invariant forall key :: key in order <==> key in m && key !in left
      decreases |left|
    {
      var key :| key in left;
      es := es + [(key, m[key])];
      assert (order + [key])[..|order|] == order;
      order, left := order + [key], left - {key};
    }
  }

  lemma SomeOrder(m: Map.Entries) returns (order: seq<string>)
    ensures Map.IsOrderOf(order, m)
  {
    order := [];
    var left := m.Keys;
    while left != {}
      invariant left <= m.Keys
      invariant forall i, j :: 0 <= i < j < |order| ==> order[i] != order[j]
      invariant forall key :: key in order <==> key in m && key !in left
      decreases |left|
    {
      var key :| key in left;
      order, left := order + [key], left - {key};
    }
  }

  /** The two arrays of a successful get, or NULL twice when there is nothing to return. */
  ghost predicate PairsReturned(view: map<Ptr, Object>, es: Entries, view': map<Ptr, Object>, reply: MetadataReply) {
    && reply.status == DONE && reply.keys.Some? && reply.values.Some? && reply.count == Some(|es|)
    && var keys, values := reply.keys.value, reply.values.value;
       if es == [] then keys == values == NULL && view' == view
       else
         && keys != values && {keys, values} !! view.Keys + {NULL}
         && view' == view[keys := StringList(VersionApi.Keys(es))][values := StringList(Values(es))]
  }

  ghost predicate GetFailed(view: map<Ptr, Object>, slot: bool, view': map<Ptr, Object>, reply: MetadataReply) {
    reply.keys == reply.values == None && Ended(view, slot, reply.status, view')
  }

  /** How handing out the entries ends, given malloc's answers for the keys and for the values. */
  ghost predicate EntriesEnded(view: map<Ptr, Object>, es: Entries, grant: (bool, bool), slot: bool,
                               view': map<Ptr, Object>, reply: MetadataReply) {
    && (reply.status.code.Success? <==> es == [] || (grant.0 && grant.1))
    && if reply.status.code.Success? then PairsReturned(view, es, view', reply)
       else IsUnknown(reply.status) && reply.count == Some(|es|) && GetFailed(view, slot, view', reply)
  }

  /** How a get call ends, given the map of the table and the order in which it is iterated over. */
  ghost predicate GetEnded(view: map<Ptr, Object>, stored: Map.Entries, present: bool, filter: FilterArg,
                           backend: Backend,
                           grant: (bool, bool), order: seq<string>, slot: bool, view': map<Ptr, Object>,
                           reply: MetadataReply) {
    if present && backend.Accepts? && Readable(filter)
    then EntriesEnded(view, Selected(stored, filter, order), grant, slot, view', reply)
    else
      && !reply.status.code.Success? && reply.count == None && GetFailed(view, slot, view', reply)
      && if present && backend.NoDataset? then reply.status.code == ErrorCode.NotSupported
         && reply.status.text == NOT_SUPPORTED
         else if present && backend.Refuses? then IsFailure(reply.status, backend.f)
         else IsInvalidArgument(reply.status)
  }

  /** The arguments a get call checks before it looks at the table. */
  predicate Askable(table: Ptr, filter: FilterArg, hasOutputs: bool) {
    table != NULL && hasOutputs && !filter.NullWithCount? && filter != FilterArg.Keys([])
  }

  predicate NothingToList(filter: FilterArg, m: Map.Entries) {
    if filter.Keys? then forall i :: 0 <= i < |filter.keys| && filter.keys[i].Text? ==> filter.keys[i].text !in m
    else forall key :: key !in m
  }

  lemma NothingIsSelected(m: Map.Entries, filter: FilterArg, order: seq<string>)
    requires Readable(filter) && Map.IsOrderOf(order, m)
    ensures Selected(m, filter, order) == [] <==> NothingToList(filter, m)
  {
    hide Selected, Map.IsOrderOf;
    SelectedLists(m, filter, order);
    var es := Selected(m, filter, order);
    if filter.Keys? {
      var at :| PicksAt(at, es, filter.keys, m);
      assert es != [] ==> filter.keys[at[0]].Text? && filter.keys[at[0]].text in m;
    } else {
      assert forall key :: key in m ==> (key, m[key]) in es;
      assert es != [] ==> (es[0].0, es[0].1) in es;
    }
  }

  /**
   A get is rejected exactly for a missing argument, a filter without keys, or a key that cannot be read; otherwise
   it reports what the library answered, or that memory ran out although there was something to list.
   */
  lemma RejectedGets(view: map<Ptr, Object>, stored: Map.Entries, table: Ptr, filter: FilterArg, hasOutputs: bool,
                     backend: Backend, grant: (bool, bool), order: seq<string>, slot: bool, view': map<Ptr, Object>,
                     reply: MetadataReply)
    requires GetEnded(view, stored, Askable(table, filter, hasOutputs), filter, backend, grant, order, slot, view',
                      reply)
    ensures reply.status.code.InvalidArgument? <==>
              || table == NULL || !hasOutputs || filter == NullWithCount || filter == FilterArg.Keys([])
              || (backend.Accepts? && filter.Keys? && exists i :: 0 <= i < |filter.keys| && !filter.keys[i].Text?)
    ensures !reply.status.code.InvalidArgument? && Map.IsOrderOf(order, stored) ==>
              var s := reply.status;
              match backend
              case NoDataset => s.code == ErrorCode.NotSupported && s.text == "Not supported"
              case Refuses(f, _, _) => s.code != ErrorCode.Success && Reports(s.code, f.error) && s.text == f.rendered
              case Accepts(_) =>
                if NothingToList(filter, stored) || (grant.0 && grant.1) then s.code == ErrorCode.Success
                else s.code == ErrorCode.Unknown && s.text == "Unknown error"
  {
    hide ErrorToErrorCode, PairsReturned, GetFailed, Selected, Reports, NothingToList, Map.IsOrderOf;
    if backend.Refuses? {
      LibraryErrorsHaveTheirOwnCodes(backend.f.error);
      FailuresReportTheirCode(reply.status, backend.f);
    } else if Map.IsOrderOf(order, stored) && Readable(filter) {
      NothingIsSelected(stored, filter, order);
    }
  }

  /** The datasets after a get call: only an accepted one looks at the table. */
  function Looked(datasets: Datasets, table: Ptr, filter: FilterArg, hasOutputs: bool, backend: Backend): Datasets {
    if Askable(table, filter, hasOutputs) && backend.Accepts? then Refreshed(datasets, table, backend.found)
    else datasets
  }

  /** lancedb_table_get_metadata: reads the map in the manifest of the handle's dataset. */
  method GetMetadata(h: Heap, lib: Library, table: Ptr, filter: FilterArg, hasOutputs: bool, backend: Backend,
                     grant: (bool, bool), slot: bool) returns (reply: MetadataReply, ghost order: seq<string>)
    requires h.Ready() && TableArg(h.View(), table)
    modifies h, lib
    ensures lib.datasets == Looked(old(lib.datasets), table, filter, hasOutputs, backend)
    ensures h.Ready() && Map.IsOrderOf(order, Stored(lib.datasets, table))
    ensures GetEnded(old(h.View()), Stored(lib.datasets, table), Askable(table, filter, hasOutputs), filter, backend,
                     grant, order, slot, h.View(), reply)
    ensures reply.status.code.Success? ==>
              && Apart(old(h.blocks), h.blocks) && reply.keys.Some? && reply.values.Some?
              && reply.keys.value !in old(h.blocks) && reply.values.value !in old(h.blocks)
    ensures !reply.status.code.Success? ==> RolledBack(old(h.blocks), h.blocks, reply.status.msg, reply.status.text)
  {
    hide Forest, Held, StackBlocks, Ended, IsFailure, Apart, AllText, Map.IsOrderOf, EntriesEnded, RolledBack, Home,
        HomeOfObject, Stored, Map.Filtered;
    h.HeldAreLive();
    order := SomeOrder(Stored(Looked(lib.datasets, table, filter, hasOutputs, backend), table));
    if table == NULL || !hasOutputs || filter.NullWithCount? || filter == FilterArg.Keys([]) {
      var status := RejectCall(h, slot);
      return MetadataReply(status, None, None, None), order;
    }
    match backend
    case NoDataset =>
      var status := Fail(h, slot, ErrorCode.NotSupported, NOT_SUPPORTED);
      reply := MetadataReply(status, None, None, None);
    case Refuses(f, _, _) =>
      var status := HandleError(h, slot, f);
      reply := MetadataReply(status, None, None, None);
    case Accepts(found) =>
      var m := lib.Get(table, found);
      var es;
      if filter.Keys? {
        var entries := CollectEntries(m, filter.keys);
        if entries.None? {
          var status := RejectCall(h, slot);
          return MetadataReply(status, None, None, None), order;
        }
        es := entries.value;
      } else {
        es, order := AllEntries(m);
      }
      reply := ReturnEntries(h, es, grant, slot);
  }

  /** The part of the call that follows the lookup. */
  method ReturnEntries(h: Heap, es: Entries, grant: (bool, bool), slot: bool) returns (reply: MetadataReply)
    requires h.Ready()
    modifies h
    ensures h.Ready() && EntriesEnded(old(h.View()), es, grant, slot, h.View(), reply)
    ensures reply.status.code.Success? ==>
              && Apart(old(h.blocks), h.blocks) && reply.keys.Some? && reply.values.Some?
              && reply.keys.value !in old(h.blocks) && reply.values.value !in old(h.blocks)
    ensures !reply.status.code.Success? ==> RolledBack(old(h.blocks), h.blocks, reply.status.msg, reply.status.text)
  {
    hide Forest, Held, StackBlocks, Ended, Apart, StringList, VersionApi.Keys, Values, OneOwner, RolledBack, Home,
        HomeOfObject;
    ghost var base, owner0, view0 := h.blocks, h.owner, h.View();
    h.HeldAreLive();
    HereOwners(h);
    NextIsFresh(h.blocks, h.next, h.owner, h.rank, h.obj);
    ApartFromItself(base);
    if es == [] {
      return MetadataReply(DONE, Some(NULL), Some(NULL), Some(0));
    }
    var keys, values := MarshalPairs(h, es, grant, base);
    if keys == NULL {
      assert h.View() == view0;
      RestoredHere(h, base, owner0);
      var status := Fail(h, slot, ErrorCode.Unknown, UNKNOWN_ERROR);
      return MetadataReply(status, None, None, Some(|es|));
    }
    h.HeldAreLive();
    reply := MetadataReply(DONE, Some(keys), Some(values), Some(|es|));
  }

  /** lancedb_free_metadata; the count must be the one that was returned. */
  method FreeMetadata(h: Heap, keys: Ptr, values: Ptr, count: nat, ghost ks: seq<string>, ghost vs: seq<string>,
                      ghost base: Blocks)
    requires h.Ready() && Apart(base, h.blocks) && keys !in base && values !in base && (keys == NULL || keys != values)
    requires keys == NULL || (keys in h.View() && h.View()[keys] == StringList(ks) && count == |ks|)
    requires values == NULL || (values in h.View() && h.View()[values] == StringList(vs) && count == |vs|)
    modifies h
    ensures h.Ready() && Apart(base, h.blocks) && h.View() == old(h.View()) - {keys, values}
  {
    hide Forest, Held, StackBlocks, Apart, StringList;
    FreeStrings(h, keys, count, ks, base);
    FreeStrings(h, values, count, vs, base);
  }

  /**
   Getting metadata, reading both arrays and freeing them: the program reads the selected entries in order,
   exactly if nothing stands in the way, and every block is what it was.
   */
  method GetReadAndFree(h: Heap, lib: Library, table: Ptr, filter: FilterArg, backend: Backend, grant: (bool, bool))
    returns (pairs: Option<Entries>, ghost order: seq<string>)
    requires h.Ready() && TableArg(h.View(), table)
    modifies h, lib
    ensures h.Ready() && h.View() == old(h.View()) && h.blocks == old(h.blocks)
    ensures lib.datasets == Looked(old(lib.datasets), table, filter, true, backend)
    ensures var stored := Stored(lib.datasets, table);
            && Map.IsOrderOf(order, stored)
            && pairs == if Askable(table, filter, true) && backend.Accepts? && Readable(filter)
                           && (Selected(stored, filter, order) == [] || (grant.0 && grant.1))
                        then Some(Cleaned(Selected(stored, filter, order))) else None
    ensures pairs.Some? && Map.Clean(Stored(lib.datasets, table)) ==>
              Lists(pairs.value, filter, Stored(lib.datasets, table))
  {
    hide Forest, Held, StackBlocks, Apart, StringList, OneOwner, Map.IsOrderOf, Map.Filtered, AllText, IsFailure,
        Stored;
    ghost var base, owner0, view0 := h.blocks, h.owner, h.View();
    h.HeldAreLive();
    HereOwners(h);
    NextIsFresh(h.blocks, h.next, h.owner, h.rank, h.obj);
    var reply;
    reply, order := GetMetadata(h, lib, table, filter, true, backend, grant, false);
    if !reply.status.code.Success? {
      return None, order;
    }
    ghost var es := Selected(Stored(lib.datasets, table), filter, order);
    var all := ReadAndFree(h, reply, es, view0, base, owner0);
    pairs := Some(all);
    ListedClean(Stored(lib.datasets, table), filter, order);
  }

  lemma ListedClean(m: Map.Entries, filter: FilterArg, order: seq<string>)
    requires Readable(filter) && Map.IsOrderOf(order, m)
    ensures Map.Clean(m) ==> Lists(Cleaned(Selected(m, filter, order)), filter, m)
  {
    hide Selected, Lists;
    SelectedLists(m, filter, order);
    if Map.Clean(m) {
      CleanEntriesReadBack(m, filter, order);
    }
  }

  method ReadAndFree(h: Heap, reply: MetadataReply, ghost es: Entries, ghost view0: map<Ptr, Object>,
                     ghost base: Blocks, ghost owner0: map<Ptr, Owner>) returns (pairs: Entries)
    requires h.Ready() && Apart(base, h.blocks) && PairsReturned(view0, es, h.View(), reply)
    requires reply.keys.value !in base && reply.values.value !in base
    requires OneOwner(base, owner0) && NULL !in view0 && forall p :: p in view0 ==> p in base
    modifies h
    ensures h.Ready() && h.View() == view0 && h.blocks == base && pairs == Cleaned(es)
  {
    hide Forest, Held, StackBlocks, Apart, StringList, OneOwner, Home, HomeOfObject;
    h.HeldAreLive();
    pairs := [];
    if reply.keys.value != NULL {
      pairs := ReadPairs(h, reply.keys.value, reply.values.value, reply.count.value, es);
    }
    FreeMetadata(h, reply.keys.value, reply.values.value, reply.count.value, VersionApi.Keys(es), Values(es), base);
    assert h.View() == view0;
    RestoredHere(h, base, owner0);
  }

  /** What the caller reads in the arrays of a get call is what was set, as long as the map is clean. */
  lemma CleanEntriesReadBack(m: Map.Entries, filter: FilterArg, order: seq<string>)
    requires Map.Clean(m) && Readable(filter)
    ensures var es := Selected(m, filter, order);
            && Cleaned(es) == es && AllNulFree(VersionApi.Keys(es)) && AllNulFree(Values(es))
            && forall i :: 0 <= i < |es| ==> VersionApi.Keys(es)[i] == es[i].0 && Values(es)[i] == es[i].1
  {
    Map.FilteredIsClean(m, if filter.Keys? then Texts(filter.keys) else order);
  }
}
