/** The JSON expression builders of src/json.rs on the heap. */
module JsonExprApi {
  import opened Basics
  import opened Exprs
  import opened Objects
  import opened Memory
  import opened HeapModel
  import opened ExprApi

  /** The values on the call's stack, and what the heap holds apart from them. */
  ghost predicate Stacked(view: map<Ptr, Object>, base: map<Ptr, Object>, temps: seq<Ptr>, es: seq<Expr>) {
    && Distinct(temps) && AllExprsIn(view, temps) && ExprsIn(view, temps) == es
    && view - SetOf(temps) == base
  }

  lemma StackedPush(view: map<Ptr, Object>, base: map<Ptr, Object>, temps: seq<Ptr>, es: seq<Expr>, t: Ptr, e: Expr)
    requires Stacked(view, base, temps, es) && t !in view
    ensures Stacked(view[t := ExprObj(e)], base, temps + [t], es + [e])
  {
    hide SetOf;
    SetOfKids(temps);
    SetOfCons(temps);
    SetOfSnoc(temps, t);
    var view' := view[t := ExprObj(e)];
    assert ExprsIn(view', temps + [t]) == es + [e] by {
      forall i | 0 <= i < |temps| ensures view'[temps[i]].expr == es[i] {
      }
    }
    assert view' - (SetOf(temps) + {t}) == view - SetOf(temps);
  }

  lemma StackedReduce(view: map<Ptr, Object>, base: map<Ptr, Object>, keep: seq<Ptr>, args: seq<Ptr>, es: seq<Expr>,
                      r: Ptr, e: Expr)
    requires Stacked(view, base, keep + args, es) && r !in view - SetOf(args)
    ensures AllExprsIn(view, args) && Distinct(args) && ExprsIn(view, args) == es[|keep|..]
    ensures SetOf(args) <= SetOf(keep + args)
    ensures Stacked((view - SetOf(args))[r := ExprObj(e)], base, keep + [r], es[..|keep|] + [e])
  {
    var view' := (view - SetOf(args))[r := ExprObj(e)];
    var all := keep + args;
    forall i | 0 <= i < |args| ensures args[i] in view && view[args[i]] == ExprObj(es[|keep| + i]) {
      assert all[|keep| + i] == args[i];
    }
    assert forall j :: 0 <= j < |args| ==> all[|keep| + j] == args[j];
    forall i | 0 <= i < |keep| ensures keep[i] !in args && keep[i] in view && view[keep[i]] == ExprObj(es[i])
        && keep[i] != r {
      assert all[i] == keep[i];
      assert keep[i] in view - SetOf(args);
    }
    SetOfSnoc(keep, r);
    assert SetOf(all) == SetOf(keep) + SetOf(args) by {
      forall p ensures p in all <==> p in keep || p in args {
      }
    }
    assert view' - (SetOf(keep) + {r}) == view - SetOf(all);
  }

  lemma StackedSwap(view: map<Ptr, Object>, base: map<Ptr, Object>, a: Ptr, b: Ptr, x: Expr, y: Expr)
    requires Stacked(view, base, [a, b], [x, y])
    ensures Stacked(view, base, [b, a], [y, x])
  {
    assert SetOf([a, b]) == SetOf([b, a]);
    assert ExprsIn(view, [a, b])[0] == x && ExprsIn(view, [a, b])[1] == y;
    assert ExprsIn(view, [b, a]) == [y, x];
  }

  /** `lit(text)` pushed onto a Vec of arguments. */
  method PushLiteral(h: Heap, text: string, temps: seq<Ptr>, ghost base: map<Ptr, Object>, ghost es: seq<Expr>)
    returns (temps': seq<Ptr>)
    requires h.Valid() && Stacked(h.View(), base, temps, es) && SetOf(temps) <= h.Temps()
    modifies h
    ensures h.Valid() && Stacked(h.View(), base, temps', es + [Literal(Str(text))])
    ensures h.Temps() - SetOf(temps') == old(h.Temps()) - SetOf(temps) && SetOf(temps') <= h.Temps()
    ensures old(h.Temps()) == SetOf(temps) ==> h.Temps() == SetOf(temps')
    ensures |temps'| == |temps| + 1 && temps' == temps + [temps'[|temps|]] && temps'[|temps|] !in old(h.View())
  {
    hide Forest, Held, StackBlocks, SetOf, Stacked;
    TargetsOf([]);
    h.HeldAreLive();
    assert SlotMeanings(h.View(), []) == [];
    assert ExprsOf([]) == [];
    ghost var view := h.View();
    var t := h.StackNew(Node(LiteralShape(Str(text))), []);
    assert h.View() == view[t := ExprObj(Literal(Str(text)))];
    StackedPush(view, base, temps, es, t, Literal(Str(text)));
    SetOfSnoc(temps, t);
    temps' := temps + [t];
  }

  predicate PathOk(path: Option<seq<CArg>>) {
    path.Some? && path.value != [] && forall i :: 0 <= i < |path.value| ==> path.value[i].Text?
  }

  /** Path segments as string literals. */
  ghost function PathLiterals(path: seq<CArg>): (es: seq<Expr>)
    requires forall i :: 0 <= i < |path| ==> path[i].Text?
    ensures |es| == |path| && forall i :: 0 <= i < |es| ==> es[i] == Literal(Str(path[i].text))
  {
    seq(|path|, i requires 0 <= i < |path| => Literal(Str(path[i].text)))
  }

  /** build_json_udf_expr: consumes the JSON expression whatever the path looks like. */
  method BuildJsonUdfExpr(h: Heap, fn: Fn, jsonExpr: Ptr, path: Option<seq<CArg>>) returns (r: Ptr)
    requires h.Valid() && ExprArg(h.View(), jsonExpr) && jsonExpr !in h.Temps()
    modifies h
    ensures h.Valid() && h.Temps() == old(h.Temps())
    ensures r != NULL <==>
              && jsonExpr != NULL && path.Some? && |path.value| > 0
              && forall i :: 0 <= i < |path.value| ==> path.value[i].Text?
    ensures r == NULL ==> h.View() == old(h.View()) - {jsonExpr}
    ensures r != NULL ==>
              && r !in old(h.View()) - {jsonExpr}
              && h.View() == (old(h.View()) - {jsonExpr})[r :=
                   ExprObj(Call(fn, [ExprAt(old(h.View()), jsonExpr)] + PathLiterals(path.value)))]
  {
    hide Forest, Held, StackBlocks, Home, SetOf, Stacked, Felled, TreeDropped;
    ghost var view0, temps0, base := h.View(), h.Temps(), h.View() - {jsonExpr};
    h.HeldAreLive();
    if jsonExpr == NULL || path.None? || path.value == [] {
      if jsonExpr != NULL {
        h.DropValue(jsonExpr);
      }
      return NULL;
    }
    var json := h.Unbox(jsonExpr);
    ghost var e := view0[jsonExpr].expr;
    OneStacked(h.View(), base, json, e);
    var args := PushPath(h, path.value, json, base, e, temps0);
    if args.None? {
      return NULL;
    }
    StackedFacts(h.View(), base, args.value, [e] + PathLiterals(path.value));
    r := BuildValue(h, CallShape(fn), args.value, true);
  }

  /** The arguments of the call are the values on the stack besides those that were there before. */
  ghost predicate Pushed(view: map<Ptr, Object>, temps: set<Ptr>, args: seq<Ptr>, base: map<Ptr, Object>, es: seq<Expr>,
                         temps0: set<Ptr>) {
    Stacked(view, base, args, es) && SetOf(args) <= temps && temps - SetOf(args) == temps0 && SetOf(args) !! temps0
  }

  /** Pushes the path segments as literals; None, with everything released, at the first that cannot be read. */
  method PushPath(h: Heap, path: seq<CArg>, json: Ptr, ghost base: map<Ptr, Object>, ghost e: Expr,
                  ghost temps0: set<Ptr>)
    returns (args: Option<seq<Ptr>>)
    requires h.Valid() && Pushed(h.View(), h.Temps(), [json], base, [e], temps0)
    modifies h
    ensures h.Valid() && (args.Some? <==> forall i :: 0 <= i < |path| ==> path[i].Text?)
    ensures args.Some? ==> Pushed(h.View(), h.Temps(), args.value, base, [e] + PathLiterals(path), temps0)
    ensures args.None? ==> h.View() == base && h.Temps() == temps0
  {
    hide Forest, Held, StackBlocks, Home, HomeOfObject, Pushed, SetOf, Stacked;
    var values := [json];
    assert [e] + PathLiterals(path[..0]) == [e];
    var i := 0;
    while i < |path|
      invariant i <= |path| && forall k :: 0 <= k < i ==> path[k].Text?
      invariant h.Valid() && Pushed(h.View(), h.Temps(), values, base, [e] + PathLiterals(path[..i]), temps0)
    {
      ghost var es := [e] + PathLiterals(path[..i]);
      if !path[i].Text? {
        DropPushed(h, values, base, es, temps0);
        return None;
      }
      values := PushSegment(h, path[i].text, values, base, es, temps0);
      assert es + [Literal(Str(path[i].text))] == [e] + PathLiterals(path[..i + 1]);
      i := i + 1;
    }
    assert path[..i] == path;
    args := Some(values);
  }

  method PushSegment(h: Heap, text: string, args: seq<Ptr>, ghost base: map<Ptr, Object>, ghost es: seq<Expr>,
                     ghost temps0: set<Ptr>) returns (args': seq<Ptr>)
    requires h.Valid() && Pushed(h.View(), h.Temps(), args, base, es, temps0)
    modifies h
    ensures h.Valid() && Pushed(h.View(), h.Temps(), args', base, es + [Literal(Str(text))], temps0)
  {
    hide Forest, Held, StackBlocks, Home, HomeOfObject, SetOf, Stacked;
    h.HeldAreLive();
    SetOfKids(args);
    args' := PushLiteral(h, text, args, base, es);
    SetOfSnoc(args, args'[|args|]);
  }

  /** The end of scope of the arguments gathered so far. */
  method DropPushed(h: Heap, args: seq<Ptr>, ghost base: map<Ptr, Object>, ghost es: seq<Expr>, ghost temps0: set<Ptr>)
    requires h.Valid() && Pushed(h.View(), h.Temps(), args, base, es, temps0)
    modifies h
    ensures h.Valid() && h.View() == base && h.Temps() == temps0
  {
    hide Forest, Held, StackBlocks, SetOf, Stacked;
    StackedFacts(h.View(), base, args, es);
    DropAll(h, args);
  }

  lemma OneStacked(view: map<Ptr, Object>, base: map<Ptr, Object>, t: Ptr, e: Expr)
    requires t in view && view[t] == ExprObj(e) && view - {t} == base
    ensures Stacked(view, base, [t], [e]) && SetOf([t]) == {t}
    ensures [e] + PathLiterals([]) == [e]
  {
    assert ExprsIn(view, [t]) == [e];
  }

  lemma StackedFacts(view: map<Ptr, Object>, base: map<Ptr, Object>, temps: seq<Ptr>, es: seq<Expr>)
    requires Stacked(view, base, temps, es)
    ensures Distinct(temps) && AllExprsIn(view, temps) && ExprsIn(view, temps) == es && view - SetOf(temps) == base
  {
  }

  /** The value searched for among the elements of a JSON array. */
  function SearchValue(value: Expr, quote: bool): Expr {
    if quote
    then Call(Concat, [Literal(Str("\"")), CastUtf8(value), Literal(Str("\""))])
    else CastUtf8(value)
  }

  /** Replaces the topmost values of the call's stack by a node built over them. */
  method Reduce(h: Heap, shape: Shape, keep: seq<Ptr>, args: seq<Ptr>, ghost base: map<Ptr, Object>,
                ghost es: seq<Expr>)
    returns (r: Ptr)
    requires h.Valid() && Stacked(h.View(), base, keep + args, es) && h.Temps() == SetOf(keep + args)
    requires |es| == |keep| + |args| && Assemble(shape, es[|keep|..]).Some?
    modifies h
    ensures h.Valid() && h.Temps() == SetOf(keep + [r])
    ensures Stacked(h.View(), base, keep + [r], es[..|keep|] + [Assemble(shape, es[|keep|..]).value])
  {
    hide Forest, Held, StackBlocks, Home, SetOf, Stacked;
    ghost var view := h.View();
    StackedReduceArgs(view, base, keep, args, es);
    r := BuildValue(h, shape, args, false);
    StackedReduce(view, base, keep, args, es, r, Assemble(shape, es[|keep|..]).value);
    SetOfSnoc(keep, r);
  }

  lemma StackedReduceArgs(view: map<Ptr, Object>, base: map<Ptr, Object>, keep: seq<Ptr>, args: seq<Ptr>, es: seq<Expr>)
    requires Stacked(view, base, keep + args, es) && |es| == |keep| + |args|
    ensures AllExprsIn(view, args) && Distinct(args) && ExprsIn(view, args) == es[|keep|..]
    ensures SetOf(args) <= SetOf(keep + args) && SetOf(keep + args) - SetOf(args) == SetOf(keep)
  {
    var all := keep + args;
    forall i | 0 <= i < |args| ensures args[i] in view && view[args[i]] == ExprObj(es[|keep| + i]) {
      assert all[|keep| + i] == args[i];
    }
    assert forall i :: 0 <= i < |keep| ==> all[i] == keep[i];
    assert forall j :: 0 <= j < |args| ==> all[|keep| + j] == args[j];
    forall p ensures p in all <==> p in keep || p in args {
    }
    forall p | p in keep ensures p !in args {
      var i :| 0 <= i < |keep| && keep[i] == p;
    }
  }

  method ExprJsonArrayHas(h: Heap, jsonExpr: Ptr, path: Option<seq<CArg>>, value: Ptr, quote: bool) returns (r: Ptr)
    requires h.Ready() && ExprPair(h.View(), jsonExpr, value)
    modifies h
    ensures h.Ready()
    ensures r != NULL <==>
              && value != NULL && jsonExpr != NULL && path.Some? && |path.value| > 0
              && forall i :: 0 <= i < |path.value| ==> path.value[i].Text?
    ensures r == NULL ==> h.View() == old(h.View()) - {jsonExpr, value}
    ensures r != NULL ==>
              && r !in old(h.View()) - {jsonExpr, value}
              && h.View() == (old(h.View()) - {jsonExpr, value})[r := ExprObj(Call(ArrayHas, [
                   Call(JsonGetArray, [ExprAt(old(h.View()), jsonExpr)] + PathLiterals(path.value)),
                   SearchValue(ExprAt(old(h.View()), value), quote)]))]
  {
    hide Forest, Held, StackBlocks, Home, HomeOfObject, SetOf, SearchValue;
    ghost var view0, base := h.View(), h.View() - {jsonExpr, value};
    h.HeldAreLive();
    var val := TakeExpr(h, value);
    h.HeldAreLive();
    if val == NULL {
      assert h.View() == h.View() - {NULL} == view0 - {NULL} == view0;
      DropOptional(h, jsonExpr);
      return NULL;
    }
    ghost var view1 := h.View();
    if jsonExpr != NULL {
      KeptOutside(view0, view1, {value}, {val}, jsonExpr);
    }
    assert view1 - {val} - {jsonExpr} == base;
    r := SearchFor(h, jsonExpr, path, val, quote, base);
  }

  /** Goes on with the value, if there is one. */
  method SearchFor(h: Heap, jsonExpr: Ptr, path: Option<seq<CArg>>, val: Ptr, quote: bool, ghost base: map<Ptr, Object>)
    returns (r: Ptr)
    requires h.Valid() && h.Temps() == {val} && val in h.View() && h.View()[val].ExprObj?
    requires ExprArg(h.View(), jsonExpr) && jsonExpr != val && h.View() - {val} - {jsonExpr} == base
    modifies h
    ensures h.Ready() && (r != NULL <==> jsonExpr != NULL && PathOk(path))
    ensures r == NULL ==> h.View() == base
    ensures r != NULL ==>
              && r !in base
              && h.View() == base[r := ExprObj(Call(ArrayHas, [
                   Call(JsonGetArray, [ExprAt(old(h.View()), jsonExpr)] + PathLiterals(path.value)),
                   SearchValue(old(h.View())[val].expr, quote)]))]
  {
    hide Forest, Held, StackBlocks, Home, HomeOfObject, SearchValue, PathLiterals;
    ghost var view1 := h.View();
    h.HeldAreLive();
    var arrayPtr := BuildJsonUdfExpr(h, JsonGetArray, jsonExpr, path);
    h.HeldAreLive();
    assert h.View() - {val} - {arrayPtr} == base;
    r := OverArray(h, val, arrayPtr, quote, base, view1[val].expr);
  }

  /** Goes on with the array expression, if there is one. */
  method OverArray(h: Heap, val: Ptr, arrayPtr: Ptr, quote: bool, ghost base: map<Ptr, Object>, ghost v: Expr)
    returns (r: Ptr)
    requires h.Valid() && h.Temps() == {val} && val in h.View() && h.View()[val] == ExprObj(v)
    requires ExprArg(h.View(), arrayPtr) && arrayPtr != val && h.View() - {val} - {arrayPtr} == base
    modifies h
    ensures h.Ready() && (r != NULL <==> arrayPtr != NULL)
    ensures r == NULL ==> h.View() == base
    ensures r != NULL ==>
              r !in base && h.View() == base[r := ExprObj(Call(ArrayHas,
                                                               [ExprAt(old(h.View()), arrayPtr),
                                                                SearchValue(v, quote)]))]
  {
    hide Forest, Held, StackBlocks, Home, SetOf, Stacked, Felled, TreeDropped;
    h.HeldAreLive();
    if arrayPtr == NULL {
      h.DropValue(val);
      return NULL;
    }
    ghost var view, arr := h.View() - {arrayPtr}, h.View()[arrayPtr].expr;
    assert view - {val} == base;
    OneStacked(view, base, val, v);
    var inner := h.Unbox(arrayPtr);
    assert h.View() == view[inner := ExprObj(arr)];
    StackedPush(view, base, [val], [v], inner, arr);
    r := FinishArrayHas(h, val, inner, quote, base, v, arr);
  }

  /** Casts and quotes the value as asked, and applies array_has. */
  method FinishArrayHas(h: Heap, val: Ptr, inner: Ptr, quote: bool, ghost base: map<Ptr, Object>, ghost v: Expr,
                        ghost arr: Expr)
    returns (r: Ptr)
    requires h.Valid() && Stacked(h.View(), base, [val] + [inner], [v] + [arr]) && h.Temps() == {val, inner}
    modifies h
    ensures h.Ready() && r != NULL && r !in base
    ensures h.View() == base[r := ExprObj(Call(ArrayHas, [arr, SearchValue(v, quote)]))]
  {
    hide Forest, Held, StackBlocks, Home, SetOf, Stacked;
    assert [val] + [inner] == [val, inner] && [v] + [arr] == [v, arr];
    StackedSwap(h.View(), base, val, inner, v, arr);
    PairSet(inner, val);
    assert [inner] + [val] == [inner, val] && [arr, v][1..] == [v] && [arr, v][..1] == [arr];
    var search := Reduce(h, CastShape, [inner], [val], base, [arr, v]);
    ghost var cast := CastUtf8(v);
    if quote {
      search := Quote(h, inner, search, base, arr, cast);
    }
    ghost var s := SearchValue(v, quote);
    assert [inner] + [search] == [inner, search] && [arr] + [s] == [arr, s];
    StackedFacts(h.View(), base, [inner, search], [arr, s]);
    r := BuildValue(h, CallShape(ArrayHas), [inner, search], true);
  }

  /** `concat('"', value, '"')`. */
  method Quote(h: Heap, inner: Ptr, value: Ptr, ghost base: map<Ptr, Object>, ghost arr: Expr, ghost cast: Expr)
    returns (r: Ptr)
    requires h.Valid() && Stacked(h.View(), base, [inner] + [value], [arr] + [cast])
              && h.Temps() == SetOf([inner] + [value])
    modifies h
    ensures h.Valid() && h.Temps() == SetOf([inner] + [r])
    ensures Stacked(h.View(), base, [inner] + [r], [arr] + [Call(Concat,
                                                                 [Literal(Str("\"")), cast, Literal(Str("\""))])])
  {
    hide Forest, Held, StackBlocks, Home, SetOf, Stacked;
    ghost var q := Literal(Str("\""));
    var temps := PushLiteral(h, "\"", [inner] + [value], base, [arr] + [cast]);
    ghost var es := [arr] + [cast] + [q];
    temps := PushLiteral(h, "\"", temps, base, es);
    assert temps == [inner, value, temps[2], temps[3]] && es + [q] == [arr, cast, q, q];
    assert h.Temps() == SetOf(temps);
    var keep, args := [inner], [temps[2], value, temps[3]];
    StackedRotate(h.View(), base, inner, value, temps[2], temps[3], arr, cast, q);
    assert keep + args == [inner, temps[2], value, temps[3]];
    assert [arr, q, cast, q][1..] == [q, cast, q] && [arr, q, cast, q][..1] == [arr];
    r := Reduce(h, CallShape(Concat), keep, args, base, [arr, q, cast, q]);
  }

  lemma StackedRotate(view: map<Ptr, Object>, base: map<Ptr, Object>, a: Ptr, b: Ptr, c: Ptr, d: Ptr, x: Expr, y: Expr,
                      z: Expr)
    requires Stacked(view, base, [a, b, c, d], [x, y, z, z])
    ensures Stacked(view, base, [a, c, b, d], [x, z, y, z]) && SetOf([a, c, b, d]) == SetOf([a, b, c, d])
  {
    var es := ExprsIn(view, [a, b, c, d]);
    assert es[0] == x && es[1] == y && es[2] == z && es[3] == z;
    assert SetOf([a, c, b, d]) == SetOf([a, b, c, d]);
    assert ExprsIn(view, [a, c, b, d]) == [x, z, y, z];
  }

  lemma PairSet(a: Ptr, b: Ptr)
    ensures SetOf([a, b]) == {a, b} && [a] + [b] == [a, b]
  {
  }
}
