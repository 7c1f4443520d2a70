/**
 Table metadata over whole runs of a program: what a handle shows is what the library last found for it and
 what was committed through it since, and if the library looks when it should, everything committed to the table.
 */
module MetadataRuns {
  import opened Basics
  import opened Objects
  import opened Messages
  import opened QueryApi
  import opened VersionApi
  import opened MetadataApi
  import opened JsonMatches
  import opened Calls
  import opened Protocol
  import opened Spelling
  import Map = MetadataMap
  import Ownership

  /* ---------- one handle ---------- */

  /** The event makes the library look at the dataset of a table handle. */
  predicate Looks(event: Event, p: Ptr) {
    p != NULL && event.call.Tables? &&
    match event.call.t
    case Metadata(table, filter, hasOutputs, backend, _, _) =>
      table == p && Askable(table, filter, hasOutputs) && backend.Accepts?
    case ChangeEntries(table, change, backend, _) => table == p && Map.Acceptable(change) && !backend.NoDataset?
    case _ => false
  }

  /** The newer version the library finds then. */
  function FoundBy(event: Event, p: Ptr): Option<Map.Entries>
    requires Looks(event, p)
  {
    event.call.t.backend.found
  }

  /** The event commits a change to the metadata of a table handle. */
  predicate Commits(event: Event, p: Ptr) {
    Looks(event, p) && event.call.t.ChangeEntries? && event.call.t.backend.Accepts?
  }

  predicate Refreshes(event: Event, p: Ptr) {
    Looks(event, p) && FoundBy(event, p).Some?
  }

  /** What the library last found for a handle: when it was given out, or when it looked since. */
  ghost function BaseOf(initial: Datasets, trace: seq<Event>, p: Ptr): Map.Entries {
    if trace == [] then Stored(initial, p)
    else
      var last, before := trace[|trace| - 1], trace[..|trace| - 1];
      if MakesTable(last, p) then last.call.c.stored
      else if Refreshes(last, p) then FoundBy(last, p).value
      else BaseOf(initial, before, p)
  }

  /** All entries committed through a handle since then, in order. */
  ghost function UpdatesSince(trace: seq<Event>, p: Ptr): seq<Map.Update> {
    if trace == [] then []
    else
      var last, before := trace[|trace| - 1], trace[..|trace| - 1];
      if MakesTable(last, p) then []
      else
        var since := if Refreshes(last, p) then [] else UpdatesSince(before, p);
        if Commits(last, p) then since + Map.UpdatesOf(last.call.t.change) else since
  }

  /** What a handle shows, read off the calls. */
  ghost function Shown(initial: Datasets, trace: seq<Event>, p: Ptr): Map.Entries {
    Map.ApplyAll(BaseOf(initial, trace, p), UpdatesSince(trace, p))
  }

  lemma OneDatasetStep(s: State, event: Event, s': State, engines: nat -> Engine, p: Ptr)
    requires Stepped(s, event.call, event.reply, s', engines)
    ensures Stored(s'.datasets, p) ==
              if MakesTable(event, p) then event.call.c.stored
              else
                var m := if Refreshes(event, p) then FoundBy(event, p).value else Stored(s.datasets, p);
                if Commits(event, p) then Map.ApplyAll(m, Map.UpdatesOf(event.call.t.change)) else m
  {
    hide ExprStep, QueryStep, TableStep, FreeStep, Map.Acceptable, Map.ApplyAll, IsFailure, CreateTableStep;
    if event.call.Connections? && event.call.c.CreateTable? {
      CreatedTablesHaveIds(s, event, s', engines);
    }
  }

  lemma CreatedTablesHaveIds(s: State, event: Event, s': State, engines: nat -> Engine)
    requires Stepped(s, event.call, event.reply, s', engines) && event.call.Connections? && event.call.c.CreateTable?
    ensures event.reply.Out? && (event.reply.status.code.Success? ==> event.call.c.table.Ok?)
  {
    hide ExprStep, QueryStep, TableStep, FreeStep, IsFailure;
  }

  /**
   After any run, the dataset of a handle holds what the library last found for it, with all entries the run
   has committed through it since applied in order.
   */
  lemma {:induction false} StoredIsTheHistory(trace: seq<Event>, states: seq<State>, engines: nat -> Engine, p: Ptr)
    requires Happened(trace, states, engines)
    ensures Stored(states[|trace|].datasets, p) == Shown(states[0].datasets, trace, p)
    decreases |trace|
  {
    hide Legal, Stepped, Changes, Happened, Map.ApplyAll, Stored;
    FirstView(trace, states, engines);
    if trace == [] {
      NothingApplied(Stored(states[0].datasets, p));
      return;
    }
    var n := |trace| - 1;
    StepInto(trace, states, engines);
    StoredIsTheHistory(trace[..n], states[..n + 1], engines, p);
    OneDatasetStep(states[n], trace[n], states[n + 1], engines, p);
    if MakesTable(trace[n], p) {
      NothingApplied(trace[n].call.c.stored);
    } else {
      var since := if Refreshes(trace[n], p) then [] else UpdatesSince(trace[..n], p);
      NothingApplied(BaseOf(states[0].datasets, trace, p));
      if Commits(trace[n], p) {
        Map.ApplyAllAppends(BaseOf(states[0].datasets, trace, p), since, Map.UpdatesOf(trace[n].call.t.change));
      }
    }
  }

  lemma NothingApplied(m: Map.Entries)
    ensures Map.ApplyAll(m, []) == m
  {
  }

  /**
   Reading back: at any point of any run, a key has for a handle the value of the last entry committed through
   it since the library last found a version for it, or the value in that version.
   */
  lemma KeysHaveTheirLastUpdate(trace: seq<Event>, states: seq<State>, engines: nat -> Engine, p: Ptr, key: string)
    requires Happened(trace, states, engines)
    ensures var last := Map.LastUpdate(UpdatesSince(trace, p), key);
            Map.Lookup(Stored(states[|trace|].datasets, p), key) ==
              if last.Some? then last.value.value else Map.Lookup(BaseOf(states[0].datasets, trace, p), key)
  {
    hide Happened;
    FirstView(trace, states, engines);
    StoredIsTheHistory(trace, states, engines, p);
    Map.LastUpdateWins(BaseOf(states[0].datasets, trace, p), UpdatesSince(trace, p), key);
  }

  /** The program has changed the metadata through the handle, and the call succeeded. */
  predicate ChangesThrough(event: Event, p: Ptr) {
    && p != NULL && event.call.Tables? && event.call.t.ChangeEntries? && event.call.t.table == p
    && event.reply.Plain? && event.reply.status.code.Success?
  }

  /** The library finds another version for the handle. */
  predicate Finds(event: Event, p: Ptr) {
    && event.call.Tables? && (event.call.t.Metadata? || event.call.t.ChangeEntries?) && event.call.t.table == p
    && !event.call.t.backend.NoDataset? && event.call.t.backend.found.Some?
  }

  /** One of the entries of the call, from `start` on, is for this key. */
  predicate Names(change: Map.MetadataCall, key: string, start: nat) {
    change.keys.Some? && exists j :: start <= j < |change.keys.value| && j < change.count
                                     && change.keys.value[j].Text? && change.keys.value[j].text == key
  }

  lemma ChangesAreCommits(s: State, event: Event, s': State, engines: nat -> Engine, p: Ptr)
    requires Stepped(s, event.call, event.reply, s', engines)
    ensures ChangesThrough(event, p) <==> Commits(event, p)
  {
    hide ExprStep, QueryStep, ConnectionStep, FreeStep, Map.Acceptable, IsFailure, Ended, NearestStep, FromArrowStep,
        MetadataStep, NamesStep, VersionsListed;
  }

  lemma NamedUpdates(change: Map.MetadataCall, key: string)
    requires Map.Acceptable(change)
    ensures !Names(change, key, 0) ==> Map.LastUpdate(Map.UpdatesOf(change), key) == None
    ensures forall j: nat ::
              j < change.count && change.keys.value[j].text == key && !Names(change, key, j + 1) ==>
                Map.LastUpdate(Map.UpdatesOf(change), key) == Some(Map.UpdatesOf(change)[j])
  {
    var us := Map.UpdatesOf(change);
    if !Names(change, key, 0) {
      Map.NeverUpdated(us, key);
    }
    forall j: nat | j < change.count && change.keys.value[j].text == key && !Names(change, key, j + 1)
      ensures Map.LastUpdate(us, key) == Some(us[j])
    {
      Map.LastUpdateIsAt(us, key, j);
    }
  }

  /** Whether the map has what entry `j` of the call asks for: its value, or nothing if it deletes. */
  predicate Obeys(m: Map.Entries, change: Map.MetadataCall, key: string, j: nat) {
    if change.SetCall? then
      && change.values.Some? && j < |change.values.value| && change.values.value[j].Text?
      && key in m && m[key] == change.values.value[j].text
    else key !in m
  }

  lemma CommitsAreObeyed(m: Map.Entries, change: Map.MetadataCall, key: string, j: nat)
    requires Map.Acceptable(change) && j < change.count && change.keys.value[j].text == key
    requires !Names(change, key, j + 1)
    ensures Obeys(Map.ApplyAll(m, Map.UpdatesOf(change)), change, key, j)
  {
    hide Names, Map.ApplyAll;
    NamedUpdates(change, key);
    Map.LastUpdateWins(m, Map.UpdatesOf(change), key);
  }

  lemma OthersKeepIt(m: Map.Entries, other: Map.MetadataCall, change: Map.MetadataCall, key: string, j: nat)
    requires Map.Acceptable(other) && !Names(other, key, 0) && Obeys(m, change, key, j)
    ensures Obeys(Map.ApplyAll(m, Map.UpdatesOf(other)), change, key, j)
  {
    hide Names, Map.ApplyAll;
    NamedUpdates(other, key);
    Map.LastUpdateWins(m, Map.UpdatesOf(other), key);
  }

  /** Since event `i` the handle is the same, the library has found nothing newer, and no change named the key. */
  ghost predicate LeavesKey(trace: seq<Event>, p: Ptr, key: string, i: nat, n: nat)
    requires n <= |trace|
  {
    forall k :: i < k < n ==>
      && !MakesTable(trace[k], p) && !Finds(trace[k], p)
      && (ChangesThrough(trace[k], p) ==> !Names(trace[k].call.t.change, key, 0))
  }

  /**
   Reading one's own writes: after a successful set or delete, a key has for the handle what the last entry for it
   said, until another successful change through the handle names it or the library finds another version.
   */
  lemma {:induction false} ChangesLast(trace: seq<Event>, states: seq<State>, engines: nat -> Engine, p: Ptr,
                                       key: string, i: nat, j: nat, n: nat)
    requires Happened(trace, states, engines) && i < n <= |trace| && ChangesThrough(trace[i], p)
    requires var change := trace[i].call.t.change;
             && change.keys.Some? && j < |change.keys.value| && j < change.count
             && change.keys.value[j].Text? && change.keys.value[j].text == key && !Names(change, key, j + 1)
    requires LeavesKey(trace, p, key, i, n)
    ensures Obeys(Stored(states[n].datasets, p), trace[i].call.t.change, key, j)
    decreases n
  {
    hide Legal, Stepped, Changes, Map.Acceptable, Map.ApplyAll, Map.UpdatesOf, Stored, Names, Obeys;
    var last, change := trace[n - 1], trace[i].call.t.change;
    assert StepOf(trace, states, n - 1, engines);
    OneDatasetStep(states[n - 1], last, states[n], engines, p);
    ChangesAreCommits(states[n - 1], last, states[n], engines, p);
    if i == n - 1 {
      var m := if Refreshes(last, p) then FoundBy(last, p).value else Stored(states[n - 1].datasets, p);
      CommitsAreObeyed(m, change, key, j);
    } else {
      ChangesLast(trace, states, engines, p, key, i, j, n - 1);
      if Commits(last, p) {
        OthersKeepIt(Stored(states[n - 1].datasets, p), last.call.t.change, change, key, j);
      }
    }
  }

  /** Every version the library finds for a handle is free of NUL bytes. */
  ghost predicate FindsClean(initial: Datasets, trace: seq<Event>, p: Ptr) {
    && Map.Clean(Stored(initial, p))
    && forall i :: 0 <= i < |trace| ==>
         && (MakesTable(trace[i], p) ==> Map.Clean(trace[i].call.c.stored))
         && (Refreshes(trace[i], p) ==> Map.Clean(FoundBy(trace[i], p).value))
  }

  lemma {:induction false} HistoryIsClean(initial: Datasets, trace: seq<Event>, p: Ptr)
    requires FindsClean(initial, trace, p)
    ensures Map.Clean(BaseOf(initial, trace, p)) && Map.CleanUpdates(UpdatesSince(trace, p))
  {
    hide Map.Clean, MakesTable, Refreshes;
    if trace != [] {
      var n := |trace| - 1;
      assert forall i :: 0 <= i < n ==> trace[..n][i] == trace[i];
      HistoryIsClean(initial, trace[..n], p);
    }
  }

  /** Strings that reach the library through this interface hold no NUL byte, in any run. */
  lemma StoredStaysClean(trace: seq<Event>, states: seq<State>, engines: nat -> Engine, p: Ptr)
    requires Happened(trace, states, engines) && FindsClean(states[0].datasets, trace, p)
    ensures Map.Clean(Stored(states[|trace|].datasets, p))
  {
    hide Happened, FindsClean, Map.Clean;
    FirstView(trace, states, engines);
    StoredIsTheHistory(trace, states, engines, p);
    HistoryIsClean(states[0].datasets, trace, p);
    Map.ApplyingKeepsClean(BaseOf(states[0].datasets, trace, p), UpdatesSince(trace, p));
  }

  /**
   A successful get of a run returns, as two parallel C arrays, the selected entries of what its handle shows
   then; if they hold no NUL byte, C reads exactly the strings that were set.
   */
  lemma GetsReadWhatIsShown(trace: seq<Event>, states: seq<State>, engines: nat -> Engine, i: nat)
    returns (order: seq<string>)
    requires Happened(trace, states, engines) && i < |trace| && trace[i].call.Tables? && trace[i].call.t.Metadata?
    requires trace[i].reply.MetadataGot? && trace[i].reply.pairs.status.code.Success?
    ensures var call := trace[i].call.t;
            var shown := Shown(states[0].datasets, trace[..i + 1], call.table);
            && Looks(trace[i], call.table) && Map.IsOrderOf(order, shown) && Readable(call.filter)
            && PairsReturned(states[i].view, Selected(shown, call.filter, order), states[i + 1].view,
                             trace[i].reply.pairs)
            && (Map.Clean(shown) ==>
                  Cleaned(Selected(shown, call.filter, order)) == Selected(shown, call.filter, order))
  {
    hide Legal, Stepped, Changes, Map.Clean, Map.IsOrderOf, Map.ApplyAll, PairsReturned, UpdatesSince, BaseOf, Cleaned,
        Selected, Stored, Looked;
    var call := trace[i].call.t;
    assert StepOf(trace, states, i, engines);
    Prefix(trace, states, engines, i + 1);
    StoredIsTheHistory(trace[..i + 1], states[..i + 2], engines, call.table);
    order := OrderOfGet(states[i], trace[i], states[i + 1], engines);
    var shown := Shown(states[0].datasets, trace[..i + 1], call.table);
    if Map.Clean(shown) {
      CleanEntriesReadBack(shown, call.filter, order);
    }
  }

  /** A malloc'ed array of C strings with these texts, or NULL if there are none. */
  ghost predicate HoldsTexts(view: View, p: Ptr, texts: seq<string>) {
    if texts == [] then p == NULL
    else
      && p in view && view[p].ArrayObj? && |view[p].slots| == |texts|
      && forall i :: 0 <= i < |texts| ==> NulFree(texts[i]) && view[p].slots[i] == Is(LeafObj(CStr(texts[i])))
  }

  function Firsts(es: Entries): (texts: seq<string>)
    ensures |texts| == |es| && forall i :: 0 <= i < |es| ==> texts[i] == es[i].0
  {
    seq(|es|, i requires 0 <= i < |es| => es[i].0)
  }

  function Seconds(es: Entries): (texts: seq<string>)
    ensures |texts| == |es| && forall i :: 0 <= i < |es| ==> texts[i] == es[i].1
  {
    seq(|es|, i requires 0 <= i < |es| => es[i].1)
  }

  lemma ReturnedTexts(view: View, es: Entries, view': View, m: MetadataReply)
    requires PairsReturned(view, es, view', m) && Cleaned(es) == es
    ensures m.count == Some(|es|) && m.keys.Some? && m.values.Some?
    ensures HoldsTexts(view', m.keys.value, Firsts(es)) && HoldsTexts(view', m.values.value, Seconds(es))
  {
    assert forall i :: 0 <= i < |es| ==> Cleaned(es)[i] == es[i];
  }

  /**
   What C reads after a successful get, if the handle shows no NUL byte: two arrays of as many strings as the
   count says, which are the keys and values of everything the handle shows, or of the keys asked for.
   */
  lemma GetsListWhatIsShown(trace: seq<Event>, states: seq<State>, engines: nat -> Engine, i: nat)
    returns (es: Entries)
    requires i < |trace| && trace[i].call.Tables? && trace[i].call.t.Metadata?
    requires trace[i].reply.MetadataGot? && trace[i].reply.pairs.status.code.Success?
    requires Happened(trace, states, engines)
    requires Map.Clean(Shown(states[0].datasets, trace[..i + 1], trace[i].call.t.table))
    ensures var m, view' := trace[i].reply.pairs, states[i + 1].view;
            && m.count == Some(|es|) && m.keys.Some? && m.values.Some?
            && HoldsTexts(view', m.keys.value, Firsts(es)) && HoldsTexts(view', m.values.value, Seconds(es))
    ensures Lists(es, trace[i].call.t.filter, Shown(states[0].datasets, trace[..i + 1], trace[i].call.t.table))
  {
    hide Happened, Map.Clean, Map.IsOrderOf, PairsReturned, Selected, Lists, BaseOf, UpdatesSince, HoldsTexts, Cleaned,
        Shown;
    FirstView(trace, states, engines);
    var order := GetsReadWhatIsShown(trace, states, engines, i);
    var shown := Shown(states[0].datasets, trace[..i + 1], trace[i].call.t.table);
    es := Selected(shown, trace[i].call.t.filter, order);
    SelectedLists(shown, trace[i].call.t.filter, order);
    ReturnedTexts(states[i].view, es, states[i + 1].view, trace[i].reply.pairs);
  }

  lemma OrderOfGet(s: State, event: Event, s': State, engines: nat -> Engine) returns (order: seq<string>)
    requires Stepped(s, event.call, event.reply, s', engines) && event.call.Tables? && event.call.t.Metadata?
    requires event.reply.MetadataGot? && event.reply.pairs.status.code.Success?
    ensures var call := event.call.t;
            var stored := Stored(s'.datasets, call.table);
            && Looks(event, call.table) && Map.IsOrderOf(order, stored) && Readable(call.filter)
            && PairsReturned(s.view, Selected(stored, call.filter, order), s'.view, event.reply.pairs)
  {
    hide Map.IsOrderOf, Map.Filtered, AllText, PairsReturned, IsFailure, ExprStep, QueryStep, ConnectionStep, FreeStep,
        NearestStep, NamesStep, VersionsListed, FromArrowStep, Map.Acceptable;
    var call := event.call.t;
    var stored := Stored(Looked(s.datasets, call.table, call.filter, call.hasOutputs, call.backend), call.table);
    order :| Map.IsOrderOf(order, stored)
      && GetEnded(s.view, stored, Askable(call.table, call.filter, call.hasOutputs), call.filter, call.backend,
                  call.grants, order, call.slot, s'.view, event.reply.pairs);
  }

  /* ---------- all handles of a table ---------- */

  /** All entries the run has committed to a table, through whichever handle, in order. */
  ghost function UpdatesOn(trace: seq<Event>, id: TableId): seq<Map.Update> {
    if trace == [] then []
    else
      var last, before := trace[|trace| - 1], trace[..|trace| - 1];
      if CommitsTo(last, before, id) then UpdatesOn(before, id) + Map.UpdatesOf(last.call.t.change)
      else UpdatesOn(before, id)
  }

  ghost predicate CommitsTo(event: Event, before: seq<Event>, id: TableId) {
    && event.call.Tables? && event.call.t.ChangeEntries? && Commits(event, event.call.t.table)
    && SpellTable(before, event.call.t.table) == id
  }

  /** The metadata of a table with everything committed to it, whatever any handle shows. */
  ghost function Published(start: TableId -> Map.Entries, trace: seq<Event>, id: TableId): Map.Entries {
    Map.ApplyAll(start(id), UpdatesOn(trace, id))
  }

  /** Nobody else has committed to the table since the library last found a version for this handle. */
  ghost predicate InStep(trace: seq<Event>, p: Ptr) {
    trace != [] &&
    var last, before := trace[|trace| - 1], trace[..|trace| - 1];
    || MakesTable(last, p) || Refreshes(last, p)
    || (InStep(before, p) && (CommitsTo(last, before, SpellTable(before, p)) ==> last.call.t.table == p))
  }

  /**
   What the library finds is what has been committed, and it finds nothing newer only if there is nothing
   newer: a handle whose table others have changed is refreshed before it is used.
   */
  ghost predicate FindsTheLatest(start: TableId -> Map.Entries, trace: seq<Event>) {
    trace == [] ||
    var last, before := trace[|trace| - 1], trace[..|trace| - 1];
    && FindsTheLatest(start, before)
    && forall p ::
         && (MakesTable(last, p) ==> last.call.c.stored == Published(start, before, last.call.c.table.value))
         && (Looks(last, p) ==>
               if FoundBy(last, p).Some? then FoundBy(last, p).value == Published(start, before, SpellTable(before, p))
               else InStep(before, p))
  }

  /**
   No commit is lost and none is missed: under such a library every handle that is in step shows everything
   committed to its table through any handle, in the order of the calls.
   */
  lemma {:induction false} HandlesInStepShowEveryCommit(start: TableId -> Map.Entries, trace: seq<Event>,
                                                        states: seq<State>, engines: nat -> Engine, p: Ptr)
    requires Happened(trace, states, engines) && FindsTheLatest(start, trace) && InStep(trace, p)
    ensures Stored(states[|trace|].datasets, p) == Published(start, trace, SpellTable(trace, p))
    decreases |trace|
  {
    hide Legal, Stepped, Changes, Happened, Map.ApplyAll, Stored;
    FirstView(trace, states, engines);
    var n := |trace| - 1;
    var last, before, id := trace[n], trace[..n], SpellTable(trace, p);
    StepInto(trace, states, engines);
    OneDatasetStep(states[n], last, states[n + 1], engines, p);
    if MakesTable(last, p) {
      return;
    }
    assert id == SpellTable(before, p);
    if !Refreshes(last, p) {
      HandlesInStepShowEveryCommit(start, before, states[..n + 1], engines, p);
    }
    if Commits(last, p) {
      Map.ApplyAllAppends(start(id), UpdatesOn(before, id), Map.UpdatesOf(last.call.t.change));
    }
  }

  /** So a successful get returns the selected entries of everything committed to its table before. */
  lemma GetsReadEveryCommit(start: TableId -> Map.Entries, trace: seq<Event>, states: seq<State>,
                            engines: nat -> Engine, i: nat) returns (order: seq<string>)
    requires i < |trace| && trace[i].call.Tables? && trace[i].call.t.Metadata?
    requires Happened(trace, states, engines) && FindsTheLatest(start, trace[..i + 1])
    requires trace[i].reply.MetadataGot? && trace[i].reply.pairs.status.code.Success?
    ensures var call := trace[i].call.t;
            var published := Published(start, trace[..i], SpellTable(trace[..i], call.table));
            && Map.IsOrderOf(order, published) && Readable(call.filter)
            && PairsReturned(states[i].view, Selected(published, call.filter, order), states[i + 1].view,
                             trace[i].reply.pairs)
  {
    hide Legal, Stepped, Changes, Map.ApplyAll, Map.IsOrderOf, PairsReturned, Selected, Stored, BaseOf, UpdatesSince;
    var call, upTo := trace[i].call.t, trace[..i + 1];
    order := GetsReadWhatIsShown(trace, states, engines, i);
    Prefix(trace, states, engines, i + 1);
    StoredIsTheHistory(upTo, states[..i + 2], engines, call.table);
    assert upTo[|upTo| - 1] == trace[i] && upTo[..|upTo| - 1] == trace[..i];
    HandlesInStepShowEveryCommit(start, upTo, states[..i + 2], engines, call.table);
  }

  /** And what C reads then is everything committed to the table, or the keys of it that were asked for. */
  lemma GetsListEveryCommit(start: TableId -> Map.Entries, trace: seq<Event>, states: seq<State>,
                            engines: nat -> Engine, i: nat) returns (es: Entries)
    requires i < |trace| && trace[i].call.Tables? && trace[i].call.t.Metadata?
    requires trace[i].reply.MetadataGot? && trace[i].reply.pairs.status.code.Success?
    requires Happened(trace, states, engines) && FindsTheLatest(start, trace[..i + 1])
    requires Map.Clean(Published(start, trace[..i], SpellTable(trace[..i], trace[i].call.t.table)))
    ensures var m, view' := trace[i].reply.pairs, states[i + 1].view;
            && m.count == Some(|es|) && m.keys.Some? && m.values.Some?
            && HoldsTexts(view', m.keys.value, Firsts(es)) && HoldsTexts(view', m.values.value, Seconds(es))
    ensures Lists(es, trace[i].call.t.filter,
                  Published(start, trace[..i], SpellTable(trace[..i], trace[i].call.t.table)))
  {
    hide Happened, Map.Clean, Map.IsOrderOf, PairsReturned, Selected, Lists, HoldsTexts, Cleaned, Published,
        FindsTheLatest, SpellTable;
    FirstView(trace, states, engines);
    var order := GetsReadEveryCommit(start, trace, states, engines, i);
    var published := Published(start, trace[..i], SpellTable(trace[..i], trace[i].call.t.table));
    es := Selected(published, trace[i].call.t.filter, order);
    SelectedLists(published, trace[i].call.t.filter, order);
    CleanEntriesReadBack(published, trace[i].call.t.filter, order);
    ReturnedTexts(states[i].view, es, states[i + 1].view, trace[i].reply.pairs);
  }

  /* ---------- a library that does not look ---------- */

  const CONNECTION := LeafObj(Leaf.Connection(0))
  const TABLE := LeafObj(Leaf.Table(7))
  const SET_K := Map.SetCall(Some([Text("k")]), Some([Text("v")]), 1)

  /** Opens a table twice, sets a key through one handle and gets everything through the other. */
  function StaleRun(): (trace: seq<Event>)
    ensures |trace| == 6
  {
    [ Event(Connections(NewBuilder(Text("db"))), Handle(1, None)),
      Event(Connections(Open(1, true, Ok(0), false)), Reply.Out(DONE, Some(2))),
      Event(Connections(OpenTableCall(2, Text("t"), true, Ok(7), false, map[])), Reply.Out(DONE, Some(3))),
      Event(Connections(OpenTableCall(2, Text("t"), true, Ok(7), false, map[])), Reply.Out(DONE, Some(4))),
      Event(Tables(ChangeEntries(3, SET_K, Accepts(None), false)), Reply.Plain(DONE)),
      Event(Tables(Metadata(4, Everything, true, Accepts(None), (true, true), false)),
            MetadataGot(MetadataReply(DONE, Some(NULL), Some(NULL), Some(0)))) ]
  }

  lemma ConnectionIsOpened(engines: nat -> Engine)
    ensures var call, s := Connections(Open(1, true, Ok(0), false)), State(map[1 := Ownership.BUILDER], map[]);
            && Legal(s.view, call)
            && Stepped(s, call, Reply.Out(DONE, Some(2)), State(map[2 := CONNECTION], map[]), engines)
  {
    hide ExprStep, QueryStep, TableStep, FreeStep, LegalExpr, LegalQuery, LegalTable, LegalFree;
    var held: View := map[1 := Ownership.BUILDER];
    assert held - {1} == map[] && (held - {1})[2 := CONNECTION] == map[2 := CONNECTION];
  }

  lemma TableIsOpened(s: State, t: Ptr, engines: nat -> Engine)
    requires 2 in s.view && s.view[2] == CONNECTION && t != NULL && t !in s.view
    ensures var call := Connections(OpenTableCall(2, Text("t"), true, Ok(7), false, map[]));
            && Legal(s.view, call)
            && Stepped(s, call, Reply.Out(DONE, Some(t)), State(s.view[t := TABLE], s.datasets[t := map[]]), engines)
  {
    hide ExprStep, QueryStep, TableStep, FreeStep, LegalExpr, LegalQuery, LegalTable, LegalFree;
  }

  lemma KeyIsSet(s: State, engines: nat -> Engine)
    requires 3 in s.view && s.view[3] == TABLE
    ensures var call := Tables(ChangeEntries(3, SET_K, Accepts(None), false));
            && Legal(s.view, call)
            && Stepped(s, call, Reply.Plain(DONE),
                       State(s.view, Changed(s.datasets, 3, SET_K, Accepts(None))), engines)
  {
    hide ExprStep, QueryStep, ConnectionStep, FreeStep, LegalExpr, LegalQuery, LegalConnection, LegalFree, Changed;
  }

  lemma NothingIsGot(s: State, engines: nat -> Engine)
    requires 4 in s.view && s.view[4] == TABLE && Stored(s.datasets, 4) == map[]
    ensures var call := Tables(Metadata(4, Everything, true, Accepts(None), (true, true), false));
            && Legal(s.view, call)
            && Stepped(s, call, MetadataGot(MetadataReply(DONE, Some(NULL), Some(NULL), Some(0))), s, engines)
  {
    hide ExprStep, QueryStep, ConnectionStep, FreeStep, LegalExpr, LegalQuery, LegalConnection, LegalFree;
    var call, order: seq<string> := Metadata(4, Everything, true, Accepts(None), (true, true), false), [];
    var reply := MetadataReply(DONE, Some(NULL), Some(NULL), Some(0));
    assert Looked(s.datasets, 4, Everything, true, Accepts(None)) == s.datasets;
    assert Map.IsOrderOf(order, Stored(s.datasets, 4)) && Selected(map[], Everything, order) == [];
    assert GetEnded(s.view, Stored(s.datasets, 4), Askable(4, Everything, true), Everything, Accepts(None),
                    (true, true), order, false, s.view, reply);
    assert MetadataStep(s, call, s.view, reply);
  }

  lemma TheKeyWasCommitted()
    ensures UpdatesOn(StaleRun()[..5], 7) == [Map.Update("k", Some("v"))]
  {
    var trace := StaleRun()[..5];
    assert forall i, j :: 0 <= i <= j <= 5 ==> trace[..j][..i] == trace[..i];
    NothingYet(trace[..4]);
    assert SpellTable(trace[..3], 3) == 7;
    assert CommitsTo(trace[4], trace[..4], 7);
    assert trace[..5] == trace;
  }

  lemma {:induction false} NothingYet(trace: seq<Event>)
    requires forall i :: 0 <= i < |trace| ==> trace[i].call.Connections?
    ensures UpdatesOn(trace, 7) == []
  {
    if trace != [] {
      NothingYet(trace[..|trace| - 1]);
    }
  }

  /**
   The premise is needed: if the library does not look, a get through one handle misses what was committed
   through another. This run is legal, the key was committed to the table, and the get returns nothing.
   */
  lemma StaleHandlesMissCommits(engines: nat -> Engine) returns (states: seq<State>)
    ensures Happened(StaleRun(), states, engines)
    ensures UpdatesOn(StaleRun()[..5], 7) == [Map.Update("k", Some("v"))]
    ensures StaleRun()[5].reply.pairs.count == Some(0)
  {
    hide Legal, Stepped, Changed;
    var trace, s1 := StaleRun(), State(map[1 := Ownership.BUILDER], map[]);
    var s2 := State(map[2 := CONNECTION], map[]);
    var s3 := State(s2.view[3 := TABLE], s2.datasets[3 := map[]]);
    var s4 := State(s3.view[4 := TABLE], s3.datasets[4 := map[]]);
    var s5 := State(s4.view, Changed(s4.datasets, 3, SET_K, Accepts(None)));
    states := [State(map[], map[]), s1, s2, s3, s4, s5, s5];
    Ownership.BuilderIsMade(engines);
    ConnectionIsOpened(engines);
    TableIsOpened(s2, 3, engines);
    TableIsOpened(s3, 4, engines);
    KeyIsSet(s4, engines);
    OtherDatasetsStay(s4.datasets);
    NothingIsGot(s5, engines);
    forall i | 0 <= i < |trace| ensures StepOf(trace, states, i, engines) {
      assert i == 0 || i == 1 || i == 2 || i == 3 || i == 4 || i == 5;
    }
    TheKeyWasCommitted();
  }

  lemma OtherDatasetsStay(datasets: Datasets)
    requires Stored(datasets, 4) == map[]
    ensures Stored(Changed(datasets, 3, SET_K, Accepts(None)), 4) == map[]
  {
  }
}
