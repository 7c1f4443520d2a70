/**
 What the calls of a run compute, row by row and without expressions: the value of a handle on a row follows
 from the calls that made it.
 */
module Values {
  import opened Basics
  import opened Exprs
  import opened Objects
  import opened ExprApi
  import opened JsonExprApi
  import opened JsonMatches
  import opened Calls
  import opened Protocol
  import opened Spelling
  import opened Semantics
  import opened Filters
  import T = JsonText

  /** The texts of a path, as values. */
  function PathTexts(path: seq<CArg>): (vs: seq<Value>)
    requires forall i :: 0 <= i < |path| ==> path[i].Text?
    ensures |vs| == |path| && forall i :: 0 <= i < |vs| ==> vs[i] == Known(Str(path[i].text))
  {
    seq(|path|, i requires 0 <= i < |path| => Known(Str(path[i].text)))
  }

  ghost function ValuesOf(ps: seq<Ptr>, v: Ptr -> Value): (vs: seq<Value>)
    ensures |vs| == |ps| && forall i :: 0 <= i < |vs| ==> vs[i] == v(ps[i])
  {
    seq(|ps|, i requires 0 <= i < |ps| => v(ps[i]))
  }

  /** The value on a row of what an accepted call builds, given the values of its operands there. */
  ghost function Computes(world: World, row: Row, call: ExprCall, v: Ptr -> Value): Value
    requires Yields(call)
  {
    match call
    case MakeColumn(name) => if name.text in row then Known(row[name.text]) else Missing
    case MakeString(text) => Known(Str(text.text))
    case MakeLiteral(s) => Known(s)
    case MakeBinary(l, op, r) => BinaryValue(world, op, v(l), v(r))
    case MakeAnd(l, r) => AndValue(v(l), v(r))
    case MakeOr(l, r) => OrValue(v(l), v(r))
    case MakeNot(a) => NotValue(v(a))
    case MakeIsNull(a) => Truth(v(a) == Missing)
    case MakeIsNotNull(a) => Truth(v(a) != Missing)
    case MakeInList(e, list, negated, _) =>
      var among := InValue(v(e), ValuesOf(list.value, v));
      if negated then NotValue(among) else among
    case MakeArrayHas(l, r, _) => CallValue(world, ArrayHas, [v(l), v(r)])
    case MakeJson(fn, j, path) => CallValue(world, fn, [v(j)] + PathTexts(path.value))
    case MakeJsonArrayHas(j, path, sought, quote) =>
      var elements := CallValue(world, JsonGetArray, [v(j)] + PathTexts(path.value));
      var text, q := TextValue(v(sought)), Known(Str("\""));
      CallValue(world, ArrayHas, [elements, if quote then CallValue(world, Concat, [q, text, q]) else text])
    case Clone(e) => v(e)
  }

  /** The value of a handle on a row, read off the calls. */
  ghost function SpellValue(world: World, row: Row, trace: seq<Event>, p: Ptr): Value
    decreases |trace|
  {
    if trace == [] then Truth(false)
    else
      var last, before := trace[|trace| - 1], trace[..|trace| - 1];
      if MakesExpr(last, p) then Computes(world, row, last.call.e, q => SpellValue(world, row, before, q))
      else SpellValue(world, row, before, p)
  }

  lemma EvalCall(world: World, fn: Fn, args: seq<Expr>, row: Row)
    ensures Eval(world, Expr.Call(fn, args), row) == CallValue(world, fn, EvalAll(world, args, row))
  {
    hide Eval, CallValue;
    EvalKids(world, Expr.Call(fn, args), row);
  }

  lemma PathsAreTexts(world: World, row: Row, e: Expr, path: seq<CArg>)
    requires forall i :: 0 <= i < |path| ==> path[i].Text?
    ensures EvalAll(world, [e] + PathLiterals(path), row) == [Eval(world, e, row)] + PathTexts(path)
  {
    hide Eval;
    forall i | 0 <= i < |path| ensures Eval(world, PathLiterals(path)[i], row) == Known(Str(path[i].text)) {
      LiteralIsKnown(world, Str(path[i].text), row);
    }
  }

  lemma JsonIsComputed(world: World, row: Row, fn: Fn, e: Expr, path: seq<CArg>)
    requires forall i :: 0 <= i < |path| ==> path[i].Text?
    ensures Eval(world, Expr.Call(fn, [e] + PathLiterals(path)), row) ==
              CallValue(world, fn, [Eval(world, e, row)] + PathTexts(path))
  {
    hide Eval, CallValue;
    EvalCall(world, fn, [e] + PathLiterals(path), row);
    PathsAreTexts(world, row, e, path);
  }

  lemma SoughtIsComputed(world: World, row: Row, e: Expr, quote: bool)
    ensures var text, q := TextValue(Eval(world, e, row)), Known(Str("\""));
            Eval(world, SearchValue(e, quote), row) == if quote then CallValue(world, Concat, [q, text, q]) else text
  {
    hide Eval, CallValue, TextValue, EvalAll;
    CastIsText(world, e, row);
    if quote {
      var q := Literal(Str("\""));
      LiteralIsKnown(world, Str("\""), row);
      EvalCall(world, Concat, [q, CastUtf8(e), q], row);
      assert EvalAll(world, [q, CastUtf8(e), q], row) ==
             [Known(Str("\"")), TextValue(Eval(world, e, row)), Known(Str("\""))];
    }
  }

  lemma PairIsComputed(world: World, row: Row, fn: Fn, a: Expr, b: Expr)
    ensures Eval(world, Expr.Call(fn, [a, b]), row) == CallValue(world, fn, [Eval(world, a, row), Eval(world, b, row)])
  {
    hide Eval, CallValue, EvalAll;
    EvalCall(world, fn, [a, b], row);
    assert EvalAll(world, [a, b], row) == [Eval(world, a, row), Eval(world, b, row)];
  }

  /** The term an accepted call spells has on every row the value the call computes from its operands' values. */
  lemma CallsCompute(world: World, row: Row, call: ExprCall, den: Ptr -> Expr)
    requires Yields(call)
    ensures Eval(world, TermOf(call, den), row) == Computes(world, row, call, p => Eval(world, den(p), row))
  {
    hide Eval, EvalAll, CallValue, SearchValue, TextValue, InValue, BinaryValue;
    var v := (p: Ptr) => Eval(world, den(p), row);
    match call
    case MakeColumn(name) => ColumnIsCell(world, name.text, row);
    case MakeString(text) => LiteralIsKnown(world, Str(text.text), row);
    case MakeLiteral(s) => LiteralIsKnown(world, s, row);
    case MakeBinary(l, op, r) => EvalBinary(world, den(l), op, den(r), row);
    case MakeAnd(l, r) => AndOrAreComputed(world, den(l), den(r), row);
    case MakeOr(l, r) => AndOrAreComputed(world, den(l), den(r), row);
    case MakeNot(a) => EvalNot(world, den(a), row);
    case MakeIsNull(a) => NullTestsAreComputed(world, den(a), row);
    case MakeIsNotNull(a) => NullTestsAreComputed(world, den(a), row);
    case MakeInList(e, list, negated, _) =>
      EvalIn(world, den(e), Denoted(list.value, den), negated, row);
      assert EvalAll(world, Denoted(list.value, den), row) == ValuesOf(list.value, v);
    case MakeArrayHas(l, r, _) => PairIsComputed(world, row, ArrayHas, den(l), den(r));
    case MakeJson(fn, j, path) => JsonIsComputed(world, row, fn, den(j), path.value);
    case MakeJsonArrayHas(j, path, sought, quote) =>
      JsonIsComputed(world, row, JsonGetArray, den(j), path.value);
      SoughtIsComputed(world, row, den(sought), quote);
      PairIsComputed(world, row, ArrayHas, Expr.Call(JsonGetArray, [den(j)] + PathLiterals(path.value)),
                     SearchValue(den(sought), quote));
    case Clone(e) =>
  }

  lemma ColumnIsCell(world: World, name: string, row: Row)
    ensures Eval(world, Column(name), row) == if name in row then Known(row[name]) else Missing
  {
  }

  lemma AndOrAreComputed(world: World, a: Expr, b: Expr, row: Row)
    ensures Eval(world, Binary(a, And, b), row) == AndValue(Eval(world, a, row), Eval(world, b, row))
    ensures Eval(world, Binary(a, Or, b), row) == OrValue(Eval(world, a, row), Eval(world, b, row))
  {
    hide Eval;
    EvalBinary(world, a, And, b, row);
    EvalBinary(world, a, Or, b, row);
  }

  lemma NullTestsAreComputed(world: World, a: Expr, row: Row)
    ensures Eval(world, IsNull(a), row) == Truth(Eval(world, a, row) == Missing)
    ensures Eval(world, IsNotNull(a), row) == Truth(Eval(world, a, row) != Missing)
  {
    hide Eval;
    EvalKids(world, IsNull(a), row);
    EvalKids(world, IsNotNull(a), row);
  }

  lemma {:induction false} SpelledTermsCompute(world: World, row: Row, trace: seq<Event>, p: Ptr)
    ensures Eval(world, Spell(trace, p), row) == SpellValue(world, row, trace, p)
    decreases |trace|
  {
    hide Eval, Computes, TermOf, Yields;
    if trace == [] {
      LiteralIsKnown(world, Bool(false), row);
    } else {
      var last, before := trace[|trace| - 1], trace[..|trace| - 1];
      if MakesExpr(last, p) {
        var v, w := (q: Ptr) => Eval(world, Spell(before, q), row), (q: Ptr) => SpellValue(world, row, before, q);
        CallsCompute(world, row, last.call.e, q => Spell(before, q));
        forall q ensures v(q) == w(q) {
          SpelledTermsCompute(world, row, before, q);
        }
        ComputesAgree(world, row, last.call.e, (q: Ptr) => Eval(world, ((p: Ptr) => Spell(before, p))(q), row), w);
      } else {
        SpelledTermsCompute(world, row, before, p);
      }
    }
  }

  lemma ComputesAgree(world: World, row: Row, call: ExprCall, v: Ptr -> Value, w: Ptr -> Value)
    requires Yields(call) && forall p :: v(p) == w(p)
    ensures Computes(world, row, call, v) == Computes(world, row, call, w)
  {
    hide BinaryValue, AndValue, OrValue, NotValue, InValue, CallValue, TextValue;
    if call.MakeInList? {
      assert ValuesOf(call.list.value, v) == ValuesOf(call.list.value, w);
    }
  }

  /** After any run, a live expression handle has on every row the value its calls compute there. */
  lemma HandlesHaveTheirValues(trace: seq<Event>, states: seq<State>, engines: nat -> Engine, p: Ptr, world: World,
                               row: Row)
    requires Happened(trace, states, engines)
    requires p in states[|trace|].view && states[|trace|].view[p].ExprObj?
    ensures Eval(world, states[|trace|].view[p].expr, row) == SpellValue(world, row, trace, p)
  {
    hide Happened, Eval, Spell;
    HandlesDenoteTheirSpelling(trace, states, engines, p);
    SpelledTermsCompute(world, row, trace, p);
  }

  /**
   The flags of a successful lancedb_json_matches are, row by row, whether the value computed by the program's
   expression calls is TRUE.
   */
  lemma FlagsAreTheComputedValues(trace: seq<Event>, states: seq<State>, engines: nat -> Engine, i: nat,
                                  world: World, schema: map<string, Type>, k: nat)
    requires i < |trace| && trace[i].call.Queries? && trace[i].call.q.Matches?
    requires engines(trace[i].call.q.engine) == EngineOf(world, schema)
    requires TypeOf(schema, Spell(trace[..i], trace[i].call.q.expr)) == Some(TBoolean)
    requires trace[i].reply.Flags? && trace[i].reply.matches.code.Success?
    requires Happened(trace, states, engines)
    ensures var call, m := trace[i].call.q, trace[i].reply.matches;
            var cells := BatchesAt(states[i].view, call.arrays, call.rows);
            AllCountable(cells) && m.results.Some? &&
            var rows := AllRows(cells);
            k < |rows| ==>
              && m.results.value in states[i + 1].view && states[i + 1].view[m.results.value].LeafObj?
              && states[i + 1].view[m.results.value].leaf.BoolBuffer?
              && |states[i + 1].view[m.results.value].leaf.cells| == |rows|
              && states[i + 1].view[m.results.value].leaf.cells[k] ==
                   Some(SpellValue(world, rows[k], trace[..i], call.expr) == Truth(true))
  {
    hide Happened, Spell, SpellValue, Flat, EngineOf, TypeOf, Eval, AllRows;
    FirstView(trace, states, engines);
    FlagsAreTheSpelledTruth(trace, states, engines, i, world, schema);
    var call := trace[i].call.q;
    var cells := BatchesAt(states[i].view, call.arrays, call.rows);
    FlagsAreTruths(world, schema, Spell(trace[..i], call.expr), cells);
    if k < |AllRows(cells)| {
      SpelledTermsCompute(world, AllRows(cells)[k], trace[..i], call.expr);
    }
  }
}
