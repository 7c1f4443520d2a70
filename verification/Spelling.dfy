/**
 What the handles of a run denote, read off the calls alone: expression trees are the terms the program
 spelled, and an executed query is the one its setters spelled.
 */
module Spelling {
  import opened Basics
  import opened Exprs
  import opened Objects
  import opened ExprApi
  import opened JsonMatches
  import opened Requests
  import opened QueryApi
  import opened ConnectionApi
  import opened Calls
  import opened Protocol

  /**
   The term spelled for an expression handle: by the last call that returned it, over what its operands
   spelled then.
   */
  ghost function Spell(trace: seq<Event>, p: Ptr): Expr
    decreases |trace|
  {
    if trace == [] then Literal(Bool(false))
    else
      var last, before := trace[|trace| - 1], trace[..|trace| - 1];
      if MakesExpr(last, p) then TermOf(last.call.e, q => Spell(before, q)) else Spell(before, p)
  }

  /** Operands that denote the same make terms that denote the same. */
  lemma TermsAgree(view: View, call: ExprCall, den: Ptr -> Expr)
    requires LegalExpr(view, call) && Yields(call)
    requires forall q :: q in view && view[q].ExprObj? ==> den(q) == view[q].expr
    ensures TermOf(call, p => ExprAt(view, p)) == TermOf(call, den)
  {
    hide JsonExprApi.SearchValue;
    if call.MakeInList? {
      assert forall i :: 0 <= i < |call.list.value| ==> den(call.list.value[i]) == ExprAt(view, call.list.value[i]);
      assert Denoted(call.list.value, p => ExprAt(view, p)) == Denoted(call.list.value, den);
    }
  }

  lemma StepInto(trace: seq<Event>, states: seq<State>, engines: nat -> Engine)
    requires Happened(trace, states, engines) && trace != []
    ensures var n := |trace| - 1;
            && Happened(trace[..n], states[..n + 1], engines) && states[..n + 1][|trace[..n]|] == states[n]
            && Legal(states[n].view, trace[n].call)
               && Stepped(states[n], trace[n].call, trace[n].reply, states[n + 1], engines)
            && Changes(states[n].view, trace[n], states[n + 1].view)
  {
    hide Legal, Stepped, Changes;
    HappenedBefore(trace, states, engines);
    assert StepOf(trace, states, |trace| - 1, engines);
    EveryCallChanges(states[|trace| - 1], trace[|trace| - 1], states[|trace|], engines);
  }

  /**
   Expression trees refine their call history: after any run, each live expression handle denotes
   exactly the term spelled by the calls that produced it.
   */
  lemma {:induction false} HandlesDenoteTheirSpelling(trace: seq<Event>, states: seq<State>, engines: nat -> Engine,
                                                      p: Ptr)
    requires Happened(trace, states, engines)
    requires p in states[|trace|].view && states[|trace|].view[p].ExprObj?
    ensures states[|trace|].view[p].expr == Spell(trace, p)
    decreases |trace|
  {
    hide Legal, Stepped, Changes, TermOf, LegalExpr, Yields, Happened;
    FirstView(trace, states, engines);
    var n := |trace| - 1;
    StepInto(trace, states, engines);
    var before, view, last := trace[..n], states[n].view, trace[n];
    forall q | q in view && view[q].ExprObj? ensures Spell(before, q) == view[q].expr {
      HandlesDenoteTheirSpelling(before, states[..n + 1], engines, q);
    }
    OneStep(states[n], last, states[n + 1], engines, p);
    if MakesExpr(last, p) {
      TermsAgree(view, last.call.e, q => Spell(before, q));
    }
  }

  lemma FirstView(trace: seq<Event>, states: seq<State>, engines: nat -> Engine)
    requires Happened(trace, states, engines)
    ensures |states| == |trace| + 1 && states[0].view == map[]
  {
    hide Legal, Stepped;
  }

  /** One call: an expression that was there still denotes the same, or is the term this call made. */
  lemma OneStep(s: State, event: Event, s': State, engines: nat -> Engine, p: Ptr)
    requires Legal(s.view, event.call) && Stepped(s, event.call, event.reply, s', engines)
    requires Changes(s.view, event, s'.view) && p in s'.view && s'.view[p].ExprObj?
    ensures if MakesExpr(event, p)
            then LegalExpr(s.view, event.call.e) && Yields(event.call.e)
                 && s'.view[p].expr == TermOf(event.call.e, q => ExprAt(s.view, q))
            else p in s.view && s.view[p] == s'.view[p]
  {
    hide TermOf, LegalExpr, LegalQuery, LegalTable, LegalConnection, LegalFree, QueryStep, TableStep, ConnectionStep,
        FreeStep, Consumed, Yields;
  }

  /* ---------- queries ---------- */

  /** The table a table handle was opened on. */
  ghost function SpellTable(trace: seq<Event>, p: Ptr): TableId
    decreases |trace|
  {
    if trace == [] then 0
    else
      var last, before := trace[|trace| - 1], trace[..|trace| - 1];
      if MakesTable(last, p) then last.call.c.table.value else SpellTable(before, p)
  }

  /** How a query object came about: its table and vector, and the setter calls made on it since. */
  datatype QueryHistory = QueryHistory(table: TableId, vector: Option<Vector>, calls: seq<SetterCall>)

  ghost function SpellQuery(trace: seq<Event>, p: Ptr): QueryHistory
    decreases |trace|
  {
    if trace == [] then QueryHistory(0, None, [])
    else
      var last, before := trace[|trace| - 1], trace[..|trace| - 1];
      if MakesQuery(last, p) then
        QueryHistory(SpellTable(before, last.call.q.table), if last.call.q.wantsVector then last.call.q.vector
                     else None, [])
      else if SetsQuery(last, p) then
        var h := SpellQuery(before, p);
        h.(calls := h.calls + [SettingOf(last.call.q, q => Spell(before, q))])
      else SpellQuery(before, p)
  }

  ghost function StateOf(h: QueryHistory): QueryState {
    Requests.After(QueryState(NewFields(h.table, h.vector), None), h.calls)
  }

  lemma {:induction false} TablesDenoteTheirSpelling(trace: seq<Event>, states: seq<State>, engines: nat -> Engine,
                                                     p: Ptr)
    requires Happened(trace, states, engines)
    requires p in states[|trace|].view && states[|trace|].view[p].LeafObj? && states[|trace|].view[p].leaf.Table?
    ensures states[|trace|].view[p].leaf.id == SpellTable(trace, p)
    decreases |trace|
  {
    hide Legal, Stepped, Changes, Happened;
    FirstView(trace, states, engines);
    var n := |trace| - 1;
    StepInto(trace, states, engines);
    OneTableStep(states[n], trace[n], states[n + 1], engines, p);
    if !MakesTable(trace[n], p) {
      TablesDenoteTheirSpelling(trace[..n], states[..n + 1], engines, p);
    }
  }

  lemma OneTableStep(s: State, event: Event, s': State, engines: nat -> Engine, p: Ptr)
    requires Stepped(s, event.call, event.reply, s', engines)
    requires Changes(s.view, event, s'.view) && p in s'.view && s'.view[p].LeafObj? && s'.view[p].leaf.Table?
    ensures if MakesTable(event, p) then s'.view[p].leaf.id == event.call.c.table.value
            else p in s.view && s.view[p] == s'.view[p]
  {
    hide ExprStep, QueryStep, TableStep, FreeStep, CreationFailure;
  }

  lemma SettingsAgree(view: View, call: QueryCall, den: Ptr -> Expr)
    requires IsSetter(call) && (call.ExprFilter? ==> ExprArg(view, call.expr))
    requires forall q :: q in view && view[q].ExprObj? ==> den(q) == view[q].expr
    ensures SettingOf(call, p => ExprAt(view, p)) == SettingOf(call, den)
  {
  }

  lemma OneQueryStep(s: State, event: Event, s': State, engines: nat -> Engine, p: Ptr)
    requires Legal(s.view, event.call) && Stepped(s, event.call, event.reply, s', engines)
    requires Changes(s.view, event, s'.view) && p in s'.view && s'.view[p].QueryObj?
    ensures p != NULL ==>
              if MakesQuery(event, p) then
                && event.call.q.table != NULL && TableArg(s.view, event.call.q.table)
                && s'.view[p] == QueryOf(QueryState(NewFields(TableAt(s.view, event.call.q.table),
                                                  if event.call.q.wantsVector then event.call.q.vector else None),
                                                      None))
              else if SetsQuery(event, p) then
                && (event.call.q.ExprFilter? ==> ExprArg(s.view, event.call.q.expr))
                && p in s.view && s.view[p].QueryObj?
                && s'.view[p] == QueryOf(SetBy(StateAt(s.view, p), SettingOf(event.call.q, q => ExprAt(s.view, q))))
              else p in s.view && s.view[p] == s'.view[p]
  {
    hide LegalExpr, LegalTable, LegalConnection, LegalFree, ExprStep, TableStep, ConnectionStep, FreeStep, SettingOf,
        MatchesStep, ToArrowStep, ExecuteStep, Apply, BatchesArg, RequestOf;
  }

  ghost function SetBy(q: QueryState, call: SetterCall): QueryState {
    if call.Accepted? then Apply(q, call.setting) else q
  }

  /** After any run, a live query object is in the state its own setter calls lead to, rejected ones not counting. */
  lemma {:induction false} QueriesDenoteTheirSpelling(trace: seq<Event>, states: seq<State>, engines: nat -> Engine,
                                                      p: Ptr)
    requires Happened(trace, states, engines) && p != NULL
    requires p in states[|trace|].view && states[|trace|].view[p].QueryObj?
    ensures states[|trace|].view[p] == QueryOf(StateOf(SpellQuery(trace, p)))
    decreases |trace|
  {
    hide Legal, Stepped, Changes, Happened, SettingOf, Apply, IsSetter;
    FirstView(trace, states, engines);
    var n := |trace| - 1;
    StepInto(trace, states, engines);
    var before, view, last := trace[..n], states[n].view, trace[n];
    OneQueryStep(states[n], last, states[n + 1], engines, p);
    if MakesQuery(last, p) {
      var t := last.call.q.table;
      TablesDenoteTheirSpelling(before, states[..n + 1], engines, t);
    } else {
      QueriesDenoteTheirSpelling(before, states[..n + 1], engines, p);
      if SetsQuery(last, p) {
        forall q | q in view && view[q].ExprObj? ensures Spell(before, q) == view[q].expr {
          HandlesDenoteTheirSpelling(before, states[..n + 1], engines, q);
        }
        SettingsAgree(view, last.call.q, q => Spell(before, q));
        var h := SpellQuery(before, p);
        var setting := SettingOf(last.call.q, q => Spell(before, q));
        assert (h.calls + [setting])[..|h.calls|] == h.calls;
      }
    }
  }

  /**
   Last write wins, for whole runs: the request an execution hands to the library is, field by field,
   the last accepted value the program set on that query, whatever else happened in between.
   */
  lemma ExecutedRequestsAreTheLastWritten(trace: seq<Event>, states: seq<State>, engines: nat -> Engine, i: nat)
    requires Happened(trace, states, engines) && i < |trace|
    requires trace[i].call.Queries? && trace[i].call.q.Execute? && trace[i].call.q.q != NULL
    ensures var h := SpellQuery(trace[..i], trace[i].call.q.q);
            trace[i].reply.Executed? && trace[i].reply.request == Some(FromHistory(h.table, h.vector, h.calls))
  {
    hide RequestOf, FromHistory, Apply, Legal, Stepped;
    var q := trace[i].call.q.q;
    assert StepOf(trace, states, i, engines);
    ExecuteEvent(states[i], trace[i], states[i + 1], engines);
    ExecuteIsLegal(states[i].view, trace[i].call);
    Prefix(trace, states, engines, i);
    QueriesDenoteTheirSpelling(trace[..i], states[..i + 1], engines, q);
    var h := SpellQuery(trace[..i], q);
    LastWriteWins(h.table, h.vector, h.calls);
  }

  lemma ExecuteEvent(s: State, event: Event, s': State, engines: nat -> Engine)
    requires Stepped(s, event.call, event.reply, s', engines) && event.call.Queries? && event.call.q.Execute?
    ensures event.reply.Executed?
    ensures ExecuteStep(s.view, event.call.q.q, event.call.q.outcome, s'.view, event.reply.p, event.reply.request)
  {
    hide ExprStep, TableStep, ConnectionStep, FreeStep, MatchesStep, ToArrowStep, SetterResult, ExecuteStep;
  }

  lemma ExecuteIsLegal(view: View, call: Calls.Call)
    requires Legal(view, call) && call.Queries? && call.q.Execute?
    ensures QueryArg(view, call.q.q)
  {
    hide LegalExpr, LegalTable, LegalConnection, LegalFree;
  }

  lemma Prefix(trace: seq<Event>, states: seq<State>, engines: nat -> Engine, i: nat)
    requires Happened(trace, states, engines) && i <= |trace|
    ensures Happened(trace[..i], states[..i + 1], engines) && states[..i + 1][|trace[..i]|] == states[i]
  {
    hide StepOf;
    HappenedUpTo(trace, states, i, engines);
  }
}
