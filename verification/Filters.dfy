/** From calls to results: the flags a program reads are the truth of the filter it spelled. */
module Filters {
  import opened Basics
  import opened Exprs
  import opened Objects
  import opened ExprApi
  import opened JsonMatches
  import opened Calls
  import opened Protocol
  import opened Spelling
  import opened Semantics
  import opened Messages

  /** lancedb_expr_and and lancedb_expr_or do what lancedb_expr_binary does with the same operator. */
  lemma AndOrAreBinary(view: View, l: Ptr, r: Ptr, view': View, p: Ptr, msg: Message)
    ensures LegalExpr(view, MakeAnd(l, r)) <==> LegalExpr(view, MakeBinary(l, And, r))
    ensures LegalExpr(view, MakeOr(l, r)) <==> LegalExpr(view, MakeBinary(l, Or, r))
    ensures ExprStep(view, MakeAnd(l, r), view', p, msg) <==> ExprStep(view, MakeBinary(l, And, r), view', p, msg)
    ensures ExprStep(view, MakeOr(l, r), view', p, msg) <==> ExprStep(view, MakeBinary(l, Or, r), view', p, msg)
  {
  }

  /**
   Whatever a run did before, the flags of a successful lancedb_json_matches call are, row by row and batch
   by batch, whether the filter spelled by the program's expression calls is true there.
   */
  lemma FlagsAreTheSpelledTruth(trace: seq<Event>, states: seq<State>, engines: nat -> Engine, i: nat,
                                world: World, schema: map<string, Type>)
    requires Happened(trace, states, engines) && i < |trace|
    requires trace[i].call.Queries? && trace[i].call.q.Matches?
              && engines(trace[i].call.q.engine) == EngineOf(world, schema)
    requires TypeOf(schema, Spell(trace[..i], trace[i].call.q.expr)) == Some(TBoolean)
    requires trace[i].reply.Flags? && trace[i].reply.matches.code.Success?
    ensures var call, m := trace[i].call.q, trace[i].reply.matches;
            var cells := BatchesAt(states[i].view, call.arrays, call.rows);
            && AllCountable(cells) && m.results.Some?
            && m.count == Some(|Flat(EngineOf(world, schema), Spell(trace[..i], call.expr), cells)|)
            && (m.results.value == NULL <==> m.count == Some(0))
            && (m.results.value != NULL ==>
                  && m.results.value in states[i + 1].view
                  && states[i + 1].view[m.results.value] == Results(Truths(world, Spell(trace[..i], call.expr),
                                                                           AllRows(cells))))
  {
    hide Flat, AllRows, Spell, EngineOf, TypeOf, Legal, Stepped, FailsWith;
    var call := trace[i].call.q;
    assert StepOf(trace, states, i, engines);
    MatchesEvent(states[i], trace[i], states[i + 1], engines);
    MatchesIsLegal(states[i].view, trace[i].call);
    Prefix(trace, states, engines, i);
    HandlesDenoteTheirSpelling(trace[..i], states[..i + 1], engines, call.expr);
    var cells := BatchesAt(states[i].view, call.arrays, call.rows);
    FlagsAreTruths(world, schema, Spell(trace[..i], call.expr), cells);
    FlatLength(EngineOf(world, schema), Spell(trace[..i], call.expr), cells);
  }

  lemma MatchesEvent(s: State, event: Event, s': State, engines: nat -> Engine)
    requires Stepped(s, event.call, event.reply, s', engines) && event.call.Queries? && event.call.q.Matches?
    requires event.reply.Flags?
    ensures MatchesStep(s.view, event.call.q, engines(event.call.q.engine), s'.view, event.reply.matches)
  {
    hide ExprStep, TableStep, ConnectionStep, FreeStep, MatchesStep, ToArrowStep, ExecuteStep;
  }

  lemma MatchesIsLegal(view: View, call: Calls.Call)
    requires call.Queries? && call.q.Matches? && call.q.arrays != NULL && Legal(view, call)
    ensures ExprArg(view, call.q.expr) && BatchCells(BatchesAt(view, call.q.arrays, call.q.rows))
  {
  }
}
