/**
 The meaning of filter expressions under three-valued logic: AND, OR and NOT as in section 8.12 and IN as
 in section 8.4 of ISO/IEC 9075:1992. A NULL condition does not match.
 */
module Semantics {
  import opened Basics
  import opened Exprs
  import opened Objects
  import opened JsonMatches
  import opened JsonExprApi
  import T = JsonText

  /** What an expression evaluates to on a row; `Items` is a list of JSON texts. */
  datatype Value = Missing | Known(s: Scalar) | Items(texts: seq<string>)

  /** The functions that belong to the query engine. */
  datatype World = World(
    call: (Fn, seq<Value>) -> Value,
    arith: (BinaryOp, Scalar, Scalar) -> Value,
    less: (Scalar, Scalar) -> bool)

  function Truth(b: bool): Value {
    Known(Bool(b))
  }

  predicate IsTrue(v: Value) {
    v == Truth(true)
  }

  /** Unknown if either operand is not a truth value and the other does not decide. */
  function AndValue(a: Value, b: Value): Value {
    if a == Truth(false) || b == Truth(false) then Truth(false)
    else if a == Truth(true) && b == Truth(true) then Truth(true)
    else Missing
  }

  function OrValue(a: Value, b: Value): Value {
    if a == Truth(true) || b == Truth(true) then Truth(true)
    else if a == Truth(false) && b == Truth(false) then Truth(false)
    else Missing
  }

  function NotValue(a: Value): Value {
    if a == Truth(true) then Truth(false) else if a == Truth(false) then Truth(true) else Missing
  }

  function EqValue(a: Value, b: Value): Value {
    if a.Known? && b.Known? then Truth(a.s == b.s) else Missing
  }

  function Compare(world: World, op: BinaryOp, a: Value, b: Value): Value {
    if !a.Known? || !b.Known? then Missing
    else
      match op
      case Eq => Truth(a.s == b.s)
      case NotEq => Truth(a.s != b.s)
      case Lt => Truth(world.less(a.s, b.s))
      case LtEq => Truth(!world.less(b.s, a.s))
      case Gt => Truth(world.less(b.s, a.s))
      case GtEq => Truth(!world.less(a.s, b.s))
      case _ => world.arith(op, a.s, b.s)
  }

  function BinaryValue(world: World, op: BinaryOp, a: Value, b: Value): Value {
    match op
    case And => AndValue(a, b)
    case Or => OrValue(a, b)
    case _ => Compare(world, op, a, b)
  }

  /** `v IN (items)` is `v = ANY (items)`: true if some comparison is, NULL if none is but some is unknown. */
  function InValue(v: Value, items: seq<Value>): Value {
    if exists i :: 0 <= i < |items| && EqValue(v, items[i]) == Truth(true) then Truth(true)
    else if exists i :: 0 <= i < |items| && EqValue(v, items[i]) == Missing then Missing
    else Truth(false)
  }

  /** CAST to text. */
  function TextValue(v: Value): Value {
    match v
    case Known(Str(s)) => Known(Str(s))
    case Known(I64(i)) => Known(Str(T.IntText(i as int)))
    case Known(Bool(b)) => Known(Str(T.BoolText(b)))
    case _ => Missing
  }

  predicate AllStrings(vs: seq<Value>) {
    forall i :: 0 <= i < |vs| ==> vs[i].Known? && vs[i].s.Str?
  }

  function Joined(vs: seq<Value>): string
    requires AllStrings(vs)
  {
    if vs == [] then "" else vs[0].s.s + Joined(vs[1..])
  }

  function CallValue(world: World, fn: Fn, vs: seq<Value>): Value {
    if fn == Concat && AllStrings(vs) then Known(Str(Joined(vs)))
    else if fn == ArrayHas && |vs| == 2 && vs[0].Items? && vs[1].Known? && vs[1].s.Str?
        then Truth(vs[1].s.s in vs[0].texts)
    else world.call(fn, vs)
  }

  /** The operands of an expression. */
  function Kids(e: Expr): (ks: seq<Expr>)
    ensures forall i :: 0 <= i < |ks| ==> ks[i] < e
  {
    match e
    case Column(_) => []
    case Literal(_) => []
    case Binary(l, _, r) => [l, r]
    case Not(a) => [a]
    case IsNull(a) => [a]
    case IsNotNull(a) => [a]
    case InList(a, list, _) => [a] + list
    case Call(_, args) => args
    case CastUtf8(a) => [a]
  }

  /** The value of an expression other than a column, given the values of its operands. */
  function Combine(world: World, e: Expr, vs: seq<Value>): Value
    requires |vs| == |Kids(e)| && !e.Column?
  {
    match e
    case Literal(s) => Known(s)
    case Binary(_, op, _) => BinaryValue(world, op, vs[0], vs[1])
    case Not(_) => NotValue(vs[0])
    case IsNull(_) => Truth(vs[0] == Missing)
    case IsNotNull(_) => Truth(vs[0] != Missing)
    case InList(_, _, negated) => if negated then NotValue(InValue(vs[0], vs[1..])) else InValue(vs[0], vs[1..])
    case Call(fn, _) => CallValue(world, fn, vs)
    case CastUtf8(_) => TextValue(vs[0])
  }

  /** A column that a row does not have is NULL there. */
  function Cell(row: Row, name: string): Value {
    if name in row then Known(row[name]) else Missing
  }

  /** The value of an expression on one row. */
  function Eval(world: World, e: Expr, row: Row): Value
    decreases e
  {
    if e.Column? then Cell(row, e.name)
    else
      var ks := Kids(e);
      Combine(world, e, seq(|ks|, i requires 0 <= i < |ks| => Eval(world, ks[i], row)))
  }

  function EvalAll(world: World, es: seq<Expr>, row: Row): (vs: seq<Value>)
    ensures |vs| == |es| && forall i :: 0 <= i < |es| ==> vs[i] == Eval(world, es[i], row)
  {
    seq(|es|, i requires 0 <= i < |es| => Eval(world, es[i], row))
  }

  predicate Matches(world: World, e: Expr, row: Row) {
    IsTrue(Eval(world, e, row))
  }

  /* ---------- the laws ---------- */

  lemma EvalKids(world: World, e: Expr, row: Row)
    requires !e.Column?
    ensures Eval(world, e, row) == Combine(world, e, EvalAll(world, Kids(e), row))
  {
    var ks := Kids(e);
    assert EvalAll(world, ks, row) == seq(|ks|, i requires 0 <= i < |ks| => Eval(world, ks[i], row));
  }

  lemma EvalBinary(world: World, a: Expr, op: BinaryOp, b: Expr, row: Row)
    ensures Eval(world, Binary(a, op, b), row) == BinaryValue(world, op, Eval(world, a, row), Eval(world, b, row))
  {
    EvalKids(world, Binary(a, op, b), row);
  }

  lemma EvalNot(world: World, a: Expr, row: Row)
    ensures Eval(world, Not(a), row) == NotValue(Eval(world, a, row))
  {
    EvalKids(world, Not(a), row);
  }

  lemma EvalIn(world: World, e: Expr, list: seq<Expr>, negated: bool, row: Row)
    ensures var v := InValue(Eval(world, e, row), EvalAll(world, list, row));
            Eval(world, InList(e, list, negated), row) == if negated then NotValue(v) else v
  {
    hide Eval, EvalAll, InValue;
    EvalKids(world, InList(e, list, negated), row);
    assert EvalAll(world, [e] + list, row)[1..] == EvalAll(world, list, row);
  }

  /** AND matches where both operands match, OR where one does. */
  lemma AndOrMatch(world: World, a: Expr, b: Expr, row: Row)
    ensures Matches(world, Binary(a, And, b), row) <==> Matches(world, a, row) && Matches(world, b, row)
    ensures Matches(world, Binary(a, Or, b), row) <==> Matches(world, a, row) || Matches(world, b, row)
  {
    EvalBinary(world, a, And, b, row);
    EvalBinary(world, a, Or, b, row);
  }

  /** NOT never matches a row its operand matches; the two cover exactly the rows where the operand is a truth value. */
  lemma NotMatches(world: World, a: Expr, row: Row)
    ensures !(Matches(world, Not(a), row) && Matches(world, a, row))
    ensures Matches(world, Not(a), row) || Matches(world, a, row) <==>
              Eval(world, a, row) in {Truth(true), Truth(false)}
  {
    EvalNot(world, a, row);
  }

  /** NOT moves inwards in three values, on every row: FALSE decides an AND even against NULL, as TRUE does an OR. */
  lemma DeMorgan(world: World, a: Expr, b: Expr, row: Row)
    ensures Eval(world, Not(Binary(a, And, b)), row) == Eval(world, Binary(Not(a), Or, Not(b)), row)
    ensures Eval(world, Not(Binary(a, Or, b)), row) == Eval(world, Binary(Not(a), And, Not(b)), row)
  {
    hide Eval, Combine;
    EvalNot(world, a, row);
    EvalNot(world, b, row);
    EvalBinary(world, a, And, b, row);
    EvalBinary(world, a, Or, b, row);
    EvalBinary(world, Not(a), And, Not(b), row);
    EvalBinary(world, Not(a), Or, Not(b), row);
    EvalNot(world, Binary(a, And, b), row);
    EvalNot(world, Binary(a, Or, b), row);
  }

  /** The conditions of section 8.12 of ISO/IEC 9075:1992: NULL where the operands that are known do not decide. */
  lemma TruthTables(world: World, a: Expr, b: Expr, row: Row)
    requires {Eval(world, a, row), Eval(world, b, row)} <= {Truth(true), Truth(false), Missing}
    ensures var va, vb, both := Eval(world, a, row), Eval(world, b, row), Eval(world, Binary(a, And, b), row);
            && (both == Truth(true) <==> va == vb == Truth(true))
            && (both == Truth(false) <==> Truth(false) in {va, vb})
            && (both == Missing <==> Missing in {va, vb} && Truth(false) !in {va, vb})
    ensures var va, vb, either := Eval(world, a, row), Eval(world, b, row), Eval(world, Binary(a, Or, b), row);
            && (either == Truth(true) <==> Truth(true) in {va, vb})
            && (either == Truth(false) <==> va == vb == Truth(false))
            && (either == Missing <==> Missing in {va, vb} && Truth(true) !in {va, vb})
    ensures var va, neither := Eval(world, a, row), Eval(world, Not(a), row);
            && (neither == Truth(true) <==> va == Truth(false)) && (neither == Truth(false) <==> va == Truth(true))
            && (neither == Missing <==> va == Missing)
  {
    hide Eval, Combine;
    EvalNot(world, a, row);
    EvalBinary(world, a, And, b, row);
    EvalBinary(world, a, Or, b, row);
  }

  /** Exactly one of IS NULL and IS NOT NULL matches a row: IS NULL if the operand is NULL there. */
  lemma NullTests(world: World, a: Expr, row: Row)
    ensures Matches(world, IsNull(a), row) <==> Eval(world, a, row) == Missing
    ensures Matches(world, IsNotNull(a), row) <==> !Matches(world, IsNull(a), row)
    ensures Eval(world, IsNotNull(a), row) == Eval(world, Not(IsNull(a)), row)
  {
    hide Eval;
    EvalKids(world, IsNull(a), row);
    EvalKids(world, IsNotNull(a), row);
    EvalNot(world, IsNull(a), row);
  }

  /**
   Comparisons are NULL exactly if an operand has no value to compare; otherwise `<>` is NOT `=`, `>=` is NOT `<`,
   `<=` is NOT `>`, and `>` is `<` the other way round.
   */
  lemma Comparisons(world: World, a: Expr, b: Expr, row: Row)
    ensures Eval(world, Binary(a, NotEq, b), row) == Eval(world, Not(Binary(a, Eq, b)), row)
    ensures Eval(world, Binary(a, GtEq, b), row) == Eval(world, Not(Binary(a, Lt, b)), row)
    ensures Eval(world, Binary(a, LtEq, b), row) == Eval(world, Not(Binary(a, Gt, b)), row)
    ensures Eval(world, Binary(a, Gt, b), row) == Eval(world, Binary(b, Lt, a), row)
    ensures var va, vb := Eval(world, a, row), Eval(world, b, row);
            if va.Known? && vb.Known? then
              && (Matches(world, Binary(a, Eq, b), row) <==> va == vb)
              && (Matches(world, Binary(a, Lt, b), row) <==> world.less(va.s, vb.s))
            else
              && Eval(world, Binary(a, Eq, b), row) == Missing && Eval(world, Binary(a, Lt, b), row) == Missing
  {
    hide Eval, Combine;
    EvalBinary(world, a, Eq, b, row);
    EvalBinary(world, a, NotEq, b, row);
    EvalBinary(world, a, Lt, b, row);
    EvalBinary(world, a, LtEq, b, row);
    EvalBinary(world, a, Gt, b, row);
    EvalBinary(world, a, GtEq, b, row);
    EvalBinary(world, b, Lt, a, row);
    EvalNot(world, Binary(a, Eq, b), row);
    EvalNot(world, Binary(a, Lt, b), row);
    EvalNot(world, Binary(a, Gt, b), row);
  }

  /** `e = x1 OR e = x2 OR ...` */
  function OrChain(e: Expr, list: seq<Expr>): Expr
    requires list != []
  {
    var last := Binary(e, Eq, list[|list| - 1]);
    if |list| == 1 then last else Binary(OrChain(e, list[..|list| - 1]), Or, last)
  }

  lemma InAnother(v: Value, items: seq<Value>, w: Value)
    ensures InValue(v, items + [w]) == OrValue(InValue(v, items), EqValue(v, w)) && InValue(v, []) == Truth(false)
  {
    var more := items + [w];
    assert more[|items|] == w;
    assert EqValue(v, more[|items|]) == EqValue(v, w);
    forall i | 0 <= i < |items| ensures EqValue(v, more[i]) == EqValue(v, items[i]) {
    }
  }

  /** A nonempty IN has on every row the same value, unknown included, as the OR-chain of its equalities. */
  lemma {:induction false} InIsOrChain(world: World, e: Expr, list: seq<Expr>, row: Row)
    requires list != []
    ensures Eval(world, InList(e, list, false), row) == Eval(world, OrChain(e, list), row)
    decreases |list|
  {
    hide Eval, InValue, EvalAll;
    var n := |list| - 1;
    var v, items := Eval(world, e, row), EvalAll(world, list, row);
    EvalIn(world, e, list, false, row);
    EvalBinary(world, e, Eq, list[n], row);
    assert items == items[..n] + [items[n]];
    InAnother(v, items[..n], items[n]);
    if n == 0 {
      assert items[..0] == [];
    } else {
      InIsOrChain(world, e, list[..n], row);
      EvalIn(world, e, list[..n], false, row);
      assert EvalAll(world, list[..n], row) == items[..n];
      EvalBinary(world, OrChain(e, list[..n]), Or, Binary(e, Eq, list[n]), row);
    }
  }

  /** NOT IN is NOT of that chain, so it never matches where the operand or an unequal list would leave it unknown. */
  lemma NotInIsNotOrChain(world: World, e: Expr, list: seq<Expr>, row: Row)
    requires list != []
    ensures Eval(world, InList(e, list, true), row) == Eval(world, Not(OrChain(e, list)), row)
  {
    InIsOrChain(world, e, list, row);
    EvalIn(world, e, list, false, row);
    EvalIn(world, e, list, true, row);
    EvalNot(world, OrChain(e, list), row);
  }

  /** An empty IN matches nothing and an empty NOT IN matches everything, even where the operand is NULL. */
  lemma EmptyIn(world: World, e: Expr, row: Row)
    ensures Eval(world, InList(e, [], false), row) == Truth(false)
    ensures Eval(world, InList(e, [], true), row) == Truth(true)
  {
    EvalIn(world, e, [], false, row);
    EvalIn(world, e, [], true, row);
  }

  /* ---------- evaluation by columns ---------- */

  /** The physical result for a whole batch: one value per row, or one for all of them. */
  datatype Computed = PerRow(values: seq<Value>) | Same(value: Value)

  /** The value in row `i`. */
  function At(c: Computed, i: nat): Value
    requires c.PerRow? ==> i < |c.values|
  {
    match c
    case PerRow(values) => values[i]
    case Same(v) => v
  }

  predicate Covers(c: Computed, n: nat) {
    c.PerRow? ==> |c.values| == n
  }

  /** Operators work on scalars where all operands are scalars, and row by row otherwise. */
  function EvalColumn(world: World, e: Expr, rows: seq<Row>): (c: Computed)
    ensures Covers(c, |rows|)
    decreases e
  {
    if e.Column? then PerRow(seq(|rows|, i requires 0 <= i < |rows| => Cell(rows[i], e.name)))
    else
      var ks := Kids(e);
      var cs := seq(|ks|, k requires 0 <= k < |ks| => EvalColumn(world, ks[k], rows));
      if forall k :: 0 <= k < |cs| ==> cs[k].Same?
      then Same(Combine(world, e, seq(|cs|, k requires 0 <= k < |cs| => cs[k].value)))
      else PerRow(seq(|rows|, i requires 0 <= i < |rows| =>
             Combine(world, e, seq(|cs|, k requires 0 <= k < |cs| => At(cs[k], i)))))
  }

  /** Evaluating by columns yields, in every row, the value of the expression on that row. */
  lemma {:induction false} ColumnsRefineRows(world: World, e: Expr, rows: seq<Row>, i: nat)
    requires i < |rows|
    ensures At(EvalColumn(world, e, rows), i) == Eval(world, e, rows[i])
    decreases e
  {
    if !e.Column? {
      var ks := Kids(e);
      var cs := seq(|ks|, k requires 0 <= k < |ks| => EvalColumn(world, ks[k], rows));
      var vs := seq(|ks|, k requires 0 <= k < |ks| => Eval(world, ks[k], rows[i]));
      forall k | 0 <= k < |ks| ensures At(cs[k], i) == vs[k] {
        ColumnsRefineRows(world, ks[k], rows, i);
      }
      assert seq(|cs|, k requires 0 <= k < |cs| => At(cs[k], i)) == vs;
      if forall k :: 0 <= k < |cs| ==> cs[k].Same? {
        assert seq(|cs|, k requires 0 <= k < |cs| => cs[k].value) == vs;
      }
    }
  }

  /* ---------- searching JSON arrays ---------- */

  /** The text a literal is compared as. */
  function ScalarText(v: Scalar): string {
    match v
    case Str(s) => s
    case I64(i) => T.IntText(i as int)
    case Bool(b) => T.BoolText(b)
  }

  /** The search value built by lancedb_expr_json_array_has evaluates to the text of the value, in quotes if asked. */
  lemma SearchValueText(world: World, value: Expr, v: Scalar, quote: bool, row: Row)
    requires Eval(world, value, row) == Known(v)
    ensures Eval(world, SearchValue(value, quote), row) == Known(Str(T.SearchText(ScalarText(v), quote)))
  {
    hide Eval, TextValue, ScalarText;
    CastIsText(world, value, row);
    TextOfScalar(v);
    if quote {
      ConcatOfThree(world, "\"", CastUtf8(value), ScalarText(v), row);
    }
  }

  lemma TextOfScalar(v: Scalar)
    ensures TextValue(Known(v)) == Known(Str(ScalarText(v)))
  {
  }

  lemma ConcatOfThree(world: World, q: string, e: Expr, text: string, row: Row)
    requires Eval(world, e, row) == Known(Str(text))
    ensures Eval(world, Expr.Call(Concat, [Literal(Str(q)), e, Literal(Str(q))]), row) == Known(Str(q + text + q))
  {
    hide Eval, EvalAll, Joined, Combine;
    var args := [Literal(Str(q)), e, Literal(Str(q))];
    LiteralIsKnown(world, Str(q), row);
    EvalKids(world, Expr.Call(Concat, args), row);
    assert EvalAll(world, args, row) == [Known(Str(q)), Known(Str(text)), Known(Str(q))];
    ConcatIsJoined(world, args, [Known(Str(q)), Known(Str(text)), Known(Str(q))]);
    JoinedThree(q, text, q);
  }

  lemma ConcatIsJoined(world: World, args: seq<Expr>, vs: seq<Value>)
    requires |vs| == |args| && AllStrings(vs)
    ensures Combine(world, Expr.Call(Concat, args), vs) == Known(Str(Joined(vs)))
  {
    hide Joined;
  }

  lemma CastIsText(world: World, value: Expr, row: Row)
    ensures Eval(world, CastUtf8(value), row) == TextValue(Eval(world, value, row))
  {
    EvalKids(world, CastUtf8(value), row);
  }

  lemma LiteralIsKnown(world: World, v: Scalar, row: Row)
    ensures Eval(world, Literal(v), row) == Known(v)
  {
    EvalKids(world, Literal(v), row);
  }

  lemma JoinedThree(a: string, b: string, c: string)
    ensures Joined([Known(Str(a)), Known(Str(b)), Known(Str(c))]) == a + b + c
  {
    var vs := [Known(Str(a)), Known(Str(b)), Known(Str(c))];
    assert vs[1..][1..] == [Known(Str(c))] && vs[1..][1..][1..] == [];
    assert Joined(vs[1..][1..]) == c + Joined([]) == c;
    assert Joined(vs[1..]) == b + c;
    assert Joined(vs) == a + (b + c) == a + b + c;
  }

  lemma EvalArrayHas(world: World, arr: Expr, value: Expr, row: Row)
    ensures Eval(world, Expr.Call(ArrayHas, [arr, value]), row) ==
              CallValue(world, ArrayHas, [Eval(world, arr, row), Eval(world, value, row)])
  {
    hide Eval, CallValue;
    var args := [arr, value];
    EvalKids(world, Expr.Call(ArrayHas, args), row);
    assert EvalAll(world, args, row) == [Eval(world, arr, row), Eval(world, value, row)];
  }

  /** The whole expression says whether the search text is among the texts of the array, whatever they are. */
  lemma ArraySearch(world: World, arr: Expr, value: Expr, v: Scalar, quote: bool, row: Row, texts: seq<string>)
    requires Eval(world, arr, row) == Items(texts) && Eval(world, value, row) == Known(v)
    ensures Eval(world, Expr.Call(ArrayHas, [arr, SearchValue(value, quote)]), row) ==
              Truth(T.SearchText(ScalarText(v), quote) in texts)
  {
    hide Eval;
    SearchValueText(world, value, v, quote, row);
    EvalArrayHas(world, arr, SearchValue(value, quote), row);
  }

  /** The text a value is searched as: a string itself, an integer in decimal, and the words true and false. */
  predicate IsTextOf(text: string, v: Scalar) {
    match v
    case Str(s) => text == s
    case I64(i) => T.ReadInt(text) == Some(i as int)
    case Bool(b) => text == if b then "true" else "false"
  }

  /** The same in plain words: the list is searched for that text, put between quotation marks if asked. */
  lemma SearchedText(world: World, arr: Expr, value: Expr, v: Scalar, quote: bool, row: Row, texts: seq<string>,
                     text: string)
    requires Eval(world, arr, row) == Items(texts) && Eval(world, value, row) == Known(v) && IsTextOf(text, v)
    ensures Eval(world, Expr.Call(ArrayHas, [arr, SearchValue(value, quote)]), row) ==
              Truth((if quote then ['"'] + text + ['"'] else text) in texts)
  {
    hide Eval;
    ArraySearch(world, arr, value, v, quote, row, texts);
    if v.I64? {
      T.IntegersHaveOneText(v.i as int, text);
    }
  }

  /** Without a value or without an array, the answer is the engine's own for its functions on NULL. */
  lemma SearchWithoutValue(world: World, arr: Expr, value: Expr, quote: bool, row: Row)
    requires Eval(world, value, row) == Missing
    ensures var q := Known(Str("\""));
            Eval(world, Expr.Call(ArrayHas, [arr, SearchValue(value, quote)]), row) ==
              CallValue(world, ArrayHas, [Eval(world, arr, row), if quote then world.call(Concat, [q, Missing, q])
                                          else Missing])
  {
    hide Eval, EvalAll;
    CastIsText(world, value, row);
    if quote {
      var q := Literal(Str("\""));
      var args := [q, CastUtf8(value), q];
      LiteralIsKnown(world, Str("\""), row);
      EvalKids(world, Expr.Call(Concat, args), row);
      var vs := [Known(Str("\"")), Missing, Known(Str("\""))];
      assert EvalAll(world, args, row) == vs && !vs[1].Known?;
    }
    EvalArrayHas(world, arr, SearchValue(value, quote), row);
  }

  lemma SearchWithoutArray(world: World, arr: Expr, value: Expr, quote: bool, row: Row)
    requires !Eval(world, arr, row).Items?
    ensures Eval(world, Expr.Call(ArrayHas, [arr, SearchValue(value, quote)]), row) ==
              world.call(ArrayHas, [Eval(world, arr, row), Eval(world, SearchValue(value, quote), row)])
  {
    hide Eval;
    EvalArrayHas(world, arr, SearchValue(value, quote), row);
  }

  /** The element a value stands for in an array of JSON scalars. */
  function ElementOf(v: Scalar): T.Json {
    match v
    case Str(s) => T.JString(s)
    case I64(i) => T.JInteger(i as int)
    case Bool(b) => T.JBoolean(b)
  }

  /**
   The quote flag is sound for every value expression and elements in canonical text: with the flag that fits
   the value, a row matches exactly if the array holds the value; with the other flag, no row with a
   homogeneous array of the value's kind ever matches. String values must need no escapes.
   */
  lemma QuoteFlagIsSound(world: World, arr: Expr, value: Expr, v: Scalar, quote: bool, row: Row, js: seq<T.Json>)
    requires Eval(world, arr, row) == Items(T.Texts(js)) && Eval(world, value, row) == Known(v)
    requires v.Str? ==> T.NoEscapes(v.s)
    ensures quote == v.Str? ==>
              (Matches(world, Expr.Call(ArrayHas, [arr, SearchValue(value, quote)]), row) <==> ElementOf(v) in js)
    ensures quote != v.Str? && T.Homogeneous(js, v.Str?) ==>
              !Matches(world, Expr.Call(ArrayHas, [arr, SearchValue(value, quote)]), row)
  {
    hide Eval;
    ArraySearch(world, arr, value, v, quote, row, T.Texts(js));
    match v
    case Str(s) => T.StringSearch(js, s);
    case I64(i) => T.IntegerSearch(js, i as int);
    case Bool(b) => T.BooleanSearch(js, b);
  }

  /**
   For string values the elements may be written in any way: a quoted search matches exactly the rows whose
   array has an element that is this string and is written without escape sequences. It never finds anything
   else, and what it misses are the elements that spell the string with escapes.
   */
  lemma QuotedSearchFindsUnescapedElements(world: World, arr: Expr, value: Expr, s: string, row: Row,
                                           texts: seq<string>)
    requires Eval(world, arr, row) == Items(texts) && Eval(world, value, row) == Known(Str(s)) && T.NoEscapes(s)
    ensures Matches(world, Expr.Call(ArrayHas, [arr, SearchValue(value, true)]), row) <==>
              exists i :: 0 <= i < |texts| && T.ReadString(texts[i]) == Some(s) && '\\' !in texts[i]
  {
    hide Eval, T.ReadString;
    ArraySearch(world, arr, value, Str(s), true, row, texts);
    T.QuotedSearchInAnyTexts(texts, s);
  }

  /* ---------- types ---------- */

  datatype Type = TText | TInteger | TBoolean | TList

  predicate HasType(v: Value, t: Type) {
    match v
    case Missing => true
    case Known(Str(_)) => t == TText
    case Known(I64(_)) => t == TInteger
    case Known(Bool(_)) => t == TBoolean
    case Items(_) => t == TList
  }

  function FnType(fn: Fn): Option<Type> {
    match fn
    case JsonGetStr => Some(TText)
    case JsonGetInt => Some(TInteger)
    case JsonGetFloat => None
    case JsonGetBool => Some(TBoolean)
    case JsonContains => Some(TBoolean)
    case JsonGetArray => Some(TList)
    case ArrayHas => Some(TBoolean)
    case Concat => Some(TText)
  }

  function BinaryType(op: BinaryOp, a: Type, b: Type): Option<Type> {
    match op
    case And => if a == b == TBoolean then Some(TBoolean) else None
    case Or => if a == b == TBoolean then Some(TBoolean) else None
    case Plus => if a == b == TInteger then Some(TInteger) else None
    case Minus => if a == b == TInteger then Some(TInteger) else None
    case Multiply => if a == b == TInteger then Some(TInteger) else None
    case Divide => if a == b == TInteger then Some(TInteger) else None
    case Modulo => if a == b == TInteger then Some(TInteger) else None
    case _ => if a == b && a != TList then Some(TBoolean) else None
  }

  predicate AllTyped(ts: seq<Option<Type>>) {
    forall i :: 0 <= i < |ts| ==> ts[i].Some?
  }

  /** The type of an expression other than a column, given those of its operands. */
  function CombineType(e: Expr, ts: seq<Option<Type>>): Option<Type>
    requires |ts| == |Kids(e)| && !e.Column? && AllTyped(ts)
  {
    match e
    case Literal(Str(_)) => Some(TText)
    case Literal(I64(_)) => Some(TInteger)
    case Literal(Bool(_)) => Some(TBoolean)
    case Binary(_, op, _) => BinaryType(op, ts[0].value, ts[1].value)
    case Not(_) => if ts[0].value == TBoolean then Some(TBoolean) else None
    case IsNull(_) => Some(TBoolean)
    case IsNotNull(_) => Some(TBoolean)
    case InList(_, _, _) => if forall i :: 0 < i < |ts| ==> ts[i] == ts[0] then Some(TBoolean) else None
    case Call(fn, _) => FnType(fn)
    case CastUtf8(_) => if ts[0].value == TList then None else Some(TText)
  }

  function TypeOf(schema: map<string, Type>, e: Expr): Option<Type>
    decreases e
  {
    if e.Column? then (if e.name in schema then Some(schema[e.name]) else None)
    else
      var ks := Kids(e);
      var ts := seq(|ks|, i requires 0 <= i < |ks| => TypeOf(schema, ks[i]));
      if AllTyped(ts) then CombineType(e, ts) else None
  }

  lemma KidsAreTyped(schema: map<string, Type>, e: Expr, ts: seq<Option<Type>>)
    requires !e.Column? && |ts| == |Kids(e)| && AllTyped(ts)
    requires forall i :: 0 <= i < |ts| ==> ts[i] == TypeOf(schema, Kids(e)[i])
    ensures TypeOf(schema, e) == CombineType(e, ts)
  {
    var ks := Kids(e);
    assert ts == seq(|ks|, i requires 0 <= i < |ks| => TypeOf(schema, ks[i]));
  }

  /** Which conditions are typed: tests for NULL on anything, NOT of conditions, casts of anything but lists. */
  lemma UnaryTypes(schema: map<string, Type>, a: Expr)
    requires TypeOf(schema, a).Some?
    ensures TypeOf(schema, IsNull(a)) == TypeOf(schema, IsNotNull(a)) == Some(TBoolean)
    ensures TypeOf(schema, Not(a)) == if TypeOf(schema, a) == Some(TBoolean) then Some(TBoolean) else None
    ensures TypeOf(schema, CastUtf8(a)) == if TypeOf(schema, a) == Some(TList) then None else Some(TText)
  {
    hide TypeOf;
    var ts := [TypeOf(schema, a)];
    KidsAreTyped(schema, IsNull(a), ts);
    KidsAreTyped(schema, IsNotNull(a), ts);
    KidsAreTyped(schema, Not(a), ts);
    KidsAreTyped(schema, CastUtf8(a), ts);
  }

  /** AND and OR of conditions, comparisons of scalars of one type, and searches, which the engine types itself. */
  lemma BinaryTypes(schema: map<string, Type>, a: Expr, op: BinaryOp, b: Expr)
    requires TypeOf(schema, a).Some? && TypeOf(schema, b).Some?
    ensures var s, t := TypeOf(schema, a).value, TypeOf(schema, b).value;
            && (op in {And, Or} ==>
                  TypeOf(schema, Binary(a, op, b)) == if s == TBoolean && t == TBoolean then Some(TBoolean) else None)
            && (op in {Eq, NotEq, Lt, LtEq, Gt, GtEq} ==>
                  TypeOf(schema, Binary(a, op, b)) == if s == t && s != TList then Some(TBoolean) else None)
            && (op in {Plus, Minus, Multiply, Divide, Modulo} ==>
                  TypeOf(schema, Binary(a, op, b)) == if s == TInteger && t == TInteger then Some(TInteger) else None)
    ensures TypeOf(schema, Call(ArrayHas, [a, b])) == Some(TBoolean)
  {
    hide TypeOf;
    var ts := [TypeOf(schema, a), TypeOf(schema, b)];
    KidsAreTyped(schema, Binary(a, op, b), ts);
    KidsAreTyped(schema, Call(ArrayHas, [a, b]), ts);
  }

  predicate TypedRow(schema: map<string, Type>, row: Row) {
    forall c :: c in row && c in schema ==> HasType(Known(row[c]), schema[c])
  }

  /** The engine's own functions return what their types say, or NULL. */
  ghost predicate Lawful(world: World) {
    && (forall fn, vs :: FnType(fn).Some? ==> HasType(world.call(fn, vs), FnType(fn).value))
    && (forall op, a, b :: HasType(world.arith(op, a, b), TInteger))
  }

  /** An expression evaluates to a value of its type, or to NULL. */
  lemma {:induction false} TypesAreSound(world: World, schema: map<string, Type>, e: Expr, row: Row)
    requires Lawful(world) && TypedRow(schema, row) && TypeOf(schema, e).Some?
    ensures HasType(Eval(world, e, row), TypeOf(schema, e).value)
    decreases e
  {
    if !e.Column? {
      var ks := Kids(e);
      var ts := seq(|ks|, i requires 0 <= i < |ks| => TypeOf(schema, ks[i]));
      var vs := seq(|ks|, i requires 0 <= i < |ks| => Eval(world, ks[i], row));
      assert AllTyped(ts);
      forall i | 0 <= i < |ks| ensures HasType(vs[i], ts[i].value) {
        assert ts[i] == TypeOf(schema, ks[i]) && ts[i].Some?;
        TypesAreSound(world, schema, ks[i], row);
      }
      CombineIsTyped(world, e, ts, vs);
    }
  }

  lemma CombineIsTyped(world: World, e: Expr, ts: seq<Option<Type>>, vs: seq<Value>)
    requires Lawful(world) && !e.Column? && |ts| == |vs| == |Kids(e)| && AllTyped(ts) && CombineType(e, ts).Some?
    requires forall i :: 0 <= i < |vs| ==> HasType(vs[i], ts[i].value)
    ensures HasType(Combine(world, e, vs), CombineType(e, ts).value)
  {
  }

  /** For a condition, NOT and its operand together cover every row on which the operand is not NULL. */
  lemma NotIsComplement(world: World, schema: map<string, Type>, a: Expr, row: Row)
    requires Lawful(world) && TypedRow(schema, row) && TypeOf(schema, a) == Some(TBoolean)
    ensures Matches(world, Not(a), row) <==> !Matches(world, a, row) && Eval(world, a, row) != Missing
  {
    TypesAreSound(world, schema, a, row);
    EvalNot(world, a, row);
  }

  /* ---------- lancedb_json_matches on these semantics ---------- */

  function AsFlag(v: Value): Option<bool> {
    if v.Known? && v.s.Bool? then Some(v.s.b) else None
  }

  function Flagged(world: World, schema: map<string, Type>, e: Expr, batch: Batch): Columnar {
    if TypeOf(schema, e) != Some(TBoolean) then OtherType("a type that is not Boolean")
    else
      match EvalColumn(world, e, batch.rows)
      case PerRow(values) => BoolColumn(seq(|values|, i requires 0 <= i < |values| => AsFlag(values[i])))
      case Same(v) => BoolScalar(AsFlag(v))
  }

  /** An engine that evaluates by columns. */
  function EngineOf(world: World, schema: map<string, Type>): Engine {
    EngineCalls(None, None, (e: Expr) => None, (b: Batch) => None, (e: Expr, b: Batch) => Flagged(world, schema, e, b))
  }

  /** The rows of all batches, one after the other. */
  function AllRows(cells: seq<SlotObj>): seq<Row>
    requires AllCountable(cells)
  {
    if cells == [] then [] else AllRows(cells[..|cells| - 1]) + cells[|cells| - 1].obj.batch.rows
  }

  function Truths(world: World, e: Expr, rows: seq<Row>): (flags: seq<bool>)
    ensures |flags| == |rows| && forall k :: 0 <= k < |rows| ==> flags[k] == Matches(world, e, rows[k])
  {
    seq(|rows|, k requires 0 <= k < |rows| => Matches(world, e, rows[k]))
  }

  lemma BatchFlagsAreTruths(world: World, schema: map<string, Type>, e: Expr, cell: SlotObj)
    requires TypeOf(schema, e) == Some(TBoolean) && Countable(cell)
    ensures EvaluatesOk(EngineOf(world, schema), e, cell)
    ensures BatchFlags(EngineOf(world, schema), e, cell) == Truths(world, e, cell.obj.batch.rows)
  {
    var rows := cell.obj.batch.rows;
    forall i | 0 <= i < |rows| ensures At(EvalColumn(world, e, rows), i) == Eval(world, e, rows[i]) {
      ColumnsRefineRows(world, e, rows, i);
    }
    assert BatchFlags(EngineOf(world, schema), e, cell) == Truths(world, e, rows);
  }

  /**
   What lancedb_json_matches writes is the truth of the expression on every row of every batch, in order,
   whether evaluation produced columns or scalars.
   */
  lemma {:induction false} FlagsAreTruths(world: World, schema: map<string, Type>, e: Expr, cells: seq<SlotObj>)
    requires TypeOf(schema, e) == Some(TBoolean) && AllCountable(cells)
    ensures AllEvaluateOk(EngineOf(world, schema), e, cells)
    ensures Flat(EngineOf(world, schema), e, cells) == Truths(world, e, AllRows(cells))
  {
    hide BatchFlags, Matches, EvaluatesOk, EngineOf, TypeOf, Evaluated;
    if cells != [] {
      var n := |cells| - 1;
      FlagsAreTruths(world, schema, e, cells[..n]);
      BatchFlagsAreTruths(world, schema, e, cells[n]);
    }
  }

  /** The result for a conjunction or a disjunction is the pointwise combination of the results for its operands. */
  lemma FlagsOfAndOr(world: World, schema: map<string, Type>, a: Expr, b: Expr, cells: seq<SlotObj>)
    requires TypeOf(schema, a) == TypeOf(schema, b) == Some(TBoolean) && AllCountable(cells)
    ensures var engine := EngineOf(world, schema);
            var fa, fb := Flat(engine, a, cells), Flat(engine, b, cells);
            var both, either := Flat(engine, Binary(a, And, b), cells), Flat(engine, Binary(a, Or, b), cells);
            && |fa| == |fb| == |both| == |either| == |AllRows(cells)|
            && forall k :: 0 <= k < |fa| ==> (both[k] == (fa[k] && fb[k])) && (either[k] == (fa[k] || fb[k]))
  {
    hide Matches, EngineOf, Flat, AllRows;
    TypesOfAndOr(schema, a, b);
    FlagsAreTruths(world, schema, a, cells);
    FlagsAreTruths(world, schema, b, cells);
    FlagsAreTruths(world, schema, Binary(a, And, b), cells);
    FlagsAreTruths(world, schema, Binary(a, Or, b), cells);
    forall k | 0 <= k < |AllRows(cells)| {
      AndOrMatch(world, a, b, AllRows(cells)[k]);
    }
  }

  lemma TypesOfAndOr(schema: map<string, Type>, a: Expr, b: Expr)
    requires TypeOf(schema, a) == TypeOf(schema, b) == Some(TBoolean)
    ensures TypeOf(schema, Binary(a, And, b)) == TypeOf(schema, Binary(a, Or, b)) == TypeOf(schema, Not(a))
              == Some(TBoolean)
  {
  }

  /** The result for a negation never agrees with that of its operand on a match. */
  lemma FlagsOfNot(world: World, schema: map<string, Type>, a: Expr, cells: seq<SlotObj>)
    requires TypeOf(schema, a) == Some(TBoolean) && AllCountable(cells)
    ensures var engine := EngineOf(world, schema);
            var fa, fn := Flat(engine, a, cells), Flat(engine, Not(a), cells);
            |fa| == |fn| && forall k :: 0 <= k < |fa| ==> !(fa[k] && fn[k])
  {
    hide Matches, EngineOf, Flat, AllRows;
    TypesOfAndOr(schema, a, a);
    FlagsAreTruths(world, schema, a, cells);
    FlagsAreTruths(world, schema, Not(a), cells);
    forall k | 0 <= k < |AllRows(cells)| {
      NotMatches(world, a, AllRows(cells)[k]);
    }
  }

  /**
   The results for NOT of a conjunction or a disjunction are the pointwise combinations of the results for the
   negated operands.
   */
  lemma FlagsOfDeMorgan(world: World, schema: map<string, Type>, a: Expr, b: Expr, cells: seq<SlotObj>)
    requires TypeOf(schema, a) == TypeOf(schema, b) == Some(TBoolean) && AllCountable(cells)
    ensures var engine := EngineOf(world, schema);
            var na, nb := Flat(engine, Not(a), cells), Flat(engine, Not(b), cells);
            var notBoth := Flat(engine, Not(Binary(a, And, b)), cells);
            var neither := Flat(engine, Not(Binary(a, Or, b)), cells);
            && |na| == |nb| == |notBoth| == |neither|
            && forall k :: 0 <= k < |na| ==> (notBoth[k] == (na[k] || nb[k])) && (neither[k] == (na[k] && nb[k]))
  {
    hide Matches, EngineOf, Flat, AllRows, TypeOf;
    TypesOfAndOr(schema, a, b);
    TypeOfNot(schema, b);
    TypeOfNot(schema, Binary(a, And, b));
    TypeOfNot(schema, Binary(a, Or, b));
    FlagsAreTruths(world, schema, Not(a), cells);
    FlagsAreTruths(world, schema, Not(b), cells);
    FlagsAreTruths(world, schema, Not(Binary(a, And, b)), cells);
    FlagsAreTruths(world, schema, Not(Binary(a, Or, b)), cells);
    forall k | 0 <= k < |AllRows(cells)| {
      NotsMatch(world, a, b, AllRows(cells)[k]);
    }
  }

  lemma NotsMatch(world: World, a: Expr, b: Expr, row: Row)
    ensures Matches(world, Not(Binary(a, And, b)), row) <==> Matches(world, Not(a), row) || Matches(world, Not(b), row)
    ensures Matches(world, Not(Binary(a, Or, b)), row) <==> Matches(world, Not(a), row) && Matches(world, Not(b), row)
  {
    hide Eval;
    DeMorgan(world, a, b, row);
    AndOrMatch(world, Not(a), Not(b), row);
  }

  lemma TypeOfNode(schema: map<string, Type>, e: Expr, ts: seq<Option<Type>>)
    requires !e.Column? && |ts| == |Kids(e)| && AllTyped(ts)
    requires forall i :: 0 <= i < |ts| ==> ts[i] == TypeOf(schema, Kids(e)[i])
    ensures TypeOf(schema, e) == CombineType(e, ts)
  {
    hide CombineType, Kids;
    var ks := Kids(e);
    assert ts == seq(|ks|, i requires 0 <= i < |ks| => TypeOf(schema, ks[i]));
  }

  lemma TypeOfBinary(schema: map<string, Type>, l: Expr, op: BinaryOp, r: Expr)
    requires TypeOf(schema, l).Some? && TypeOf(schema, r).Some?
    ensures TypeOf(schema, Binary(l, op, r)) == BinaryType(op, TypeOf(schema, l).value, TypeOf(schema, r).value)
  {
    hide BinaryType, TypeOf;
    TypeOfNode(schema, Binary(l, op, r), [TypeOf(schema, l), TypeOf(schema, r)]);
  }

  lemma TypeOfNot(schema: map<string, Type>, e: Expr)
    requires TypeOf(schema, e) == Some(TBoolean)
    ensures TypeOf(schema, Not(e)) == Some(TBoolean)
  {
    hide TypeOf;
    TypeOfNode(schema, Not(e), [TypeOf(schema, e)]);
  }

  lemma TypeOfInList(schema: map<string, Type>, e: Expr, list: seq<Expr>, negated: bool)
    requires TypeOf(schema, e).Some?
    requires forall i :: 0 <= i < |list| ==> TypeOf(schema, list[i]) == TypeOf(schema, e)
    ensures TypeOf(schema, InList(e, list, negated)) == Some(TBoolean)
  {
    hide TypeOf;
    TypeOfNode(schema, InList(e, list, negated), seq(1 + |list|, i => TypeOf(schema, e)));
  }

  lemma {:induction false} TypeOfOrChain(schema: map<string, Type>, e: Expr, list: seq<Expr>)
    requires list != [] && TypeOf(schema, e).Some? && TypeOf(schema, e) != Some(TList)
    requires forall i :: 0 <= i < |list| ==> TypeOf(schema, list[i]) == TypeOf(schema, e)
    ensures TypeOf(schema, OrChain(e, list)) == TypeOf(schema, Not(OrChain(e, list))) == Some(TBoolean)
    ensures forall negated :: TypeOf(schema, InList(e, list, negated)) == Some(TBoolean)
    decreases |list|
  {
    hide TypeOf, CombineType, Kids;
    var last := Binary(e, Eq, list[|list| - 1]);
    TypeOfBinary(schema, e, Eq, list[|list| - 1]);
    if |list| > 1 {
      TypeOfOrChain(schema, e, list[..|list| - 1]);
      TypeOfBinary(schema, OrChain(e, list[..|list| - 1]), Or, last);
    }
    TypeOfNot(schema, OrChain(e, list));
    forall negated ensures TypeOf(schema, InList(e, list, negated)) == Some(TBoolean) {
      TypeOfInList(schema, e, list, negated);
    }
  }

  /** IN and NOT IN give the same results as the chain of equalities and its negation. */
  lemma FlagsOfIn(world: World, schema: map<string, Type>, e: Expr, list: seq<Expr>, cells: seq<SlotObj>)
    requires list != [] && TypeOf(schema, e).Some? && TypeOf(schema, e) != Some(TList)
    requires forall i :: 0 <= i < |list| ==> TypeOf(schema, list[i]) == TypeOf(schema, e)
    requires AllCountable(cells)
    ensures var engine := EngineOf(world, schema);
            && Flat(engine, InList(e, list, false), cells) == Flat(engine, OrChain(e, list), cells)
            && Flat(engine, InList(e, list, true), cells) == Flat(engine, Not(OrChain(e, list)), cells)
  {
    hide EngineOf, Flat, AllRows, OrChain, TypeOf;
    TypeOfOrChain(schema, e, list);
    FlagsAreTruths(world, schema, InList(e, list, false), cells);
    FlagsAreTruths(world, schema, InList(e, list, true), cells);
    FlagsAreTruths(world, schema, OrChain(e, list), cells);
    FlagsAreTruths(world, schema, Not(OrChain(e, list)), cells);
    var rows := AllRows(cells);
    forall k | 0 <= k < |rows|
      ensures Matches(world, InList(e, list, false), rows[k]) == Matches(world, OrChain(e, list), rows[k])
      ensures Matches(world, InList(e, list, true), rows[k]) == Matches(world, Not(OrChain(e, list)), rows[k])
    {
      InIsOrChain(world, e, list, rows[k]);
      NotInIsNotOrChain(world, e, list, rows[k]);
    }
  }
}
