/** The expression builders of src/expr.rs on the heap: each consumes and produces handles. */
module ExprApi {
  import opened Basics
  import opened Exprs
  import opened Objects
  import opened Memory
  import opened HeapModel
  import opened Messages

  /** A `*mut LanceDBExpr` argument: NULL or a live expression the caller holds. */
  ghost predicate ExprArg(view: map<Ptr, Object>, p: Ptr) {
    p == NULL || (p in view && view[p].ExprObj?)
  }

  /** The expression a handle denotes. */
  ghost function ExprAt(view: map<Ptr, Object>, p: Ptr): Expr {
    if p in view && view[p].ExprObj? then view[p].expr else Literal(Bool(false))
  }

  ghost function NodeOf(shape: Shape, es: seq<Expr>): Expr {
    if Assemble(shape, es).Some? then Assemble(shape, es).value else Literal(Bool(false))
  }

  /** A C array of expression pointers: pairwise distinct where not NULL. */
  ghost predicate ExprArgs(view: map<Ptr, Object>, ps: seq<Ptr>) {
    && (forall i :: 0 <= i < |ps| ==> ExprArg(view, ps[i]))
    && (forall i, j :: 0 <= i < j < |ps| && ps[i] != NULL ==> ps[i] != ps[j])
  }

  /** `if p.is_null() { None } else { Some(Box::from_raw(p).inner) }`; None is the pointer NULL. */
  method TakeExpr(h: Heap, p: Ptr) returns (v: Ptr)
    requires h.Valid() && ExprArg(h.View(), p) && p !in h.Temps()
    modifies h
    ensures h.Valid() && (v == NULL <==> p == NULL)
    ensures h.View() - {v} == old(h.View()) - {p}
    ensures v != NULL ==> v in h.View() && v !in old(h.View()) && p in old(h.View()) && h.View()[v] == old(h.View())[p]
    ensures h.Temps() == old(h.Temps()) + (if v == NULL then {} else {v})
  {
    hide Forest, Held, StackBlocks;
    if p == NULL {
      return NULL;
    }
    v := h.Unbox(p);
  }

  /** The end of scope of an optional value on the stack. */
  method DropOptional(h: Heap, v: Ptr)
    requires h.Valid() && (v == NULL || (v in h.View() && h.View()[v].ExprObj?))
    modifies h
    ensures h.Valid() && h.View() == old(h.View()) - {v} && h.Temps() == old(h.Temps()) - {v}
  {
    hide Forest, Held, StackBlocks, Felled, TreeDropped;
    h.HeldAreLive();
    if v != NULL {
      h.DropValue(v);
    }
  }

  method NewLeafExpr(h: Heap, shape: Shape) returns (r: Ptr)
    requires h.Ready() && Assemble(shape, []).Some?
    modifies h
    ensures h.Ready() && r != NULL && r !in old(h.View())
    ensures h.View() == old(h.View())[r := ExprObj(Assemble(shape, []).value)]
  {
    hide Forest, Held, StackBlocks, Targets;
    TargetsOf([]);
    assert SlotMeanings(h.View(), []) == [];
    assert ExprsOf([]) == [];
    r := h.BoxNew(Node(shape), []);
  }

  method ExprColumn(h: Heap, name: CArg) returns (r: Ptr)
    requires h.Ready()
    modifies h
    ensures h.Ready() && (r == NULL <==> !name.Text?)
    ensures h.View() == if r == NULL then old(h.View()) else old(h.View())[r := ExprObj(Column(name.text))]
    ensures r !in old(h.View())
  {
    hide Forest, Held, StackBlocks;
    h.HeldAreLive();
    match name
    case NullArg => r := NULL;
    case BadUtf8 => r := NULL;
    case Text(text) => r := NewLeafExpr(h, ColumnShape(text));
  }

  method ExprLiteralString(h: Heap, value: CArg) returns (r: Ptr)
    requires h.Ready()
    modifies h
    ensures h.Ready() && (r == NULL <==> !value.Text?)
    ensures h.View() == if r == NULL then old(h.View()) else old(h.View())[r := ExprObj(Literal(Str(value.text)))]
    ensures r !in old(h.View())
  {
    hide Forest, Held, StackBlocks;
    h.HeldAreLive();
    match value
    case NullArg => r := NULL;
    case BadUtf8 => r := NULL;
    case Text(text) => r := NewLeafExpr(h, LiteralShape(Str(text)));
  }

  /** lancedb_expr_literal_i64 and lancedb_expr_literal_bool. */
  method ExprLiteral(h: Heap, value: Scalar) returns (r: Ptr)
    requires h.Ready()
    modifies h
    ensures h.Ready() && r != NULL && r !in old(h.View())
    ensures h.View() == old(h.View())[r := ExprObj(Literal(value))]
  {
    r := NewLeafExpr(h, LiteralShape(value));
  }

  ghost function SetOf(ps: seq<Ptr>): set<Ptr> {
    set p | p in ps
  }

  ghost predicate Distinct(ps: seq<Ptr>) {
    forall i, j :: 0 <= i < j < |ps| ==> ps[i] != ps[j]
  }

  ghost predicate AllExprsIn(view: map<Ptr, Object>, ps: seq<Ptr>) {
    forall i :: 0 <= i < |ps| ==> ps[i] in view && view[ps[i]].ExprObj?
  }

  ghost function ExprsIn(view: map<Ptr, Object>, ps: seq<Ptr>): (es: seq<Expr>)
    requires AllExprsIn(view, ps)
    ensures |es| == |ps| && forall i :: 0 <= i < |ps| ==> es[i] == view[ps[i]].expr
  {
    seq(|ps|, i requires 0 <= i < |ps| => view[ps[i]].expr)
  }

  lemma SetOfKids(ps: seq<Ptr>)
    ensures forall i :: 0 <= i < |ps| ==> ps[i] in SetOf(ps)
  {
  }

  lemma SetOfCons(ps: seq<Ptr>)
    ensures ps == [] ==> SetOf(ps) == {}
    ensures ps != [] ==> SetOf(ps) == {ps[0]} + SetOf(ps[1..])
    ensures ps != [] && Distinct(ps) ==> ps[0] !in SetOf(ps[1..]) && Distinct(ps[1..])
    ensures forall p :: p in ps <==> p in SetOf(ps)
  {
    if ps != [] {
      assert ps == [ps[0]] + ps[1..];
    }
  }

  lemma ReboxedOneMore(view0: map<Ptr, Object>, view1: map<Ptr, Object>, view2: map<Ptr, Object>,
                       temps: seq<Ptr>, head: Ptr, rest: seq<Ptr>)
    requires temps != [] && AllExprsIn(view0, temps) && Distinct(temps) && head !in view0
    requires view1 == (view0 - {temps[0]})[head := view0[temps[0]]]
    requires AllExprsIn(view1, temps[1..]) && AllExprsIn(view2, rest)
              && ExprsIn(view2, rest) == ExprsIn(view1, temps[1..])
    requires Distinct(rest) && SetOf(rest) !! view1.Keys - SetOf(temps[1..])
              && view2 - SetOf(rest) == view1 - SetOf(temps[1..])
    ensures var kids := [head] + rest;
            && Distinct(kids) && SetOf(kids) !! view0.Keys - SetOf(temps)
            && AllExprsIn(view2, kids) && ExprsIn(view2, kids) == ExprsIn(view0, temps)
            && view2 - SetOf(kids) == view0 - SetOf(temps)
  {
    hide SetOf;
    var kids := [head] + rest;
    assert kids[1..] == rest;
    SetOfCons(kids);
    SetOfCons(temps);
    SetOfCons(rest);
    KeptOutside(view1, view2, SetOf(temps[1..]), SetOf(rest), head);
    forall i | 0 < i < |temps| ensures kids[i] in view2 && view2[kids[i]].ExprObj?
        && view2[kids[i]].expr == view0[temps[i]].expr {
      assert temps[1..][i - 1] == temps[i] && kids[i] == rest[i - 1];
      assert ExprsIn(view2, rest)[i - 1] == ExprsIn(view1, temps[1..])[i - 1];
    }
    assert AllExprsIn(view2, kids);
    assert ExprsIn(view2, kids) == ExprsIn(view0, temps);
    assert view1 - {head} == view0 - {temps[0]};
    MinusBoth(view0, view1, view2, temps[0], head, SetOf(temps[1..]), SetOf(rest));
  }

  lemma KeptOutside(view: map<Ptr, Object>, view': map<Ptr, Object>, gone: set<Ptr>, come: set<Ptr>, p: Ptr)
    requires view' - come == view - gone && p in view && p !in gone
    ensures p in view' && p !in come && view'[p] == view[p]
  {
    assert p in view - gone;
  }

  lemma MinusBoth(view0: map<Ptr, Object>, view1: map<Ptr, Object>, view2: map<Ptr, Object>, p: Ptr, q: Ptr,
                  gone: set<Ptr>, come: set<Ptr>)
    requires view1 - {q} == view0 - {p} && view2 - come == view1 - gone
    ensures view2 - ({q} + come) == view0 - ({p} + gone)
  {
    assert view2 - ({q} + come) == view2 - come - {q};
    assert view1 - gone - {q} == view1 - {q} - gone;
    assert view0 - {p} - gone == view0 - ({p} + gone);
  }

  /** `Box::new` for each of several values on the stack, in order. */
  method ReboxAll(h: Heap, temps: seq<Ptr>) returns (kids: seq<Ptr>)
    requires h.Valid() && AllExprsIn(h.View(), temps) && Distinct(temps) && SetOf(temps) <= h.Temps()
    modifies h
    ensures h.Valid() && h.Temps() == old(h.Temps()) - SetOf(temps)
    ensures |kids| == |temps| && Distinct(kids) && SetOf(kids) !! old(h.View()).Keys - SetOf(temps)
    ensures AllExprsIn(h.View(), kids) && ExprsIn(h.View(), kids) == ExprsIn(old(h.View()), temps)
    ensures h.View() - SetOf(kids) == old(h.View()) - SetOf(temps)
    decreases |temps|
  {
    hide Forest, Held, StackBlocks, SetOf, Home, HomeOfObject;
    SetOfCons(temps);
    if temps == [] {
      SetOfCons([]);
      return [];
    }
    ghost var view0 := h.View();
    h.HeldAreLive();
    var head := h.Rebox(temps[0]);
    ghost var view1 := h.View();
    var rest := ReboxAll(h, temps[1..]);
    kids := [head] + rest;
    ReboxedOneMore(view0, view1, h.View(), temps, head, rest);
  }

  ghost function OwnAll(ps: seq<Ptr>): (slots: seq<Slot>)
    ensures |slots| == |ps| && forall i :: 0 <= i < |ps| ==> slots[i] == Own(ps[i])
  {
    seq(|ps|, i requires 0 <= i < |ps| => Own(ps[i]))
  }

  lemma OwnAllMeans(view: map<Ptr, Object>, ps: seq<Ptr>)
    requires AllExprsIn(view, ps) && Distinct(ps)
    ensures Targets(OwnAll(ps)) == SetOf(ps) && DistinctTargets(OwnAll(ps))
    ensures var cells := SlotMeanings(view, OwnAll(ps)); AllExprs(cells) && ExprsOf(cells) == ExprsIn(view, ps)
  {
    forall p | p in SetOf(ps) ensures p in Targets(OwnAll(ps)) {
      var i :| 0 <= i < |ps| && ps[i] == p;
      assert OwnAll(ps)[i] == Own(p);
    }
  }

  /** Builds an expression node over operands on the stack; each operand is boxed on the way. */
  method BuildValue(h: Heap, shape: Shape, temps: seq<Ptr>, boxed: bool) returns (r: Ptr)
    requires h.Valid() && AllExprsIn(h.View(), temps) && Distinct(temps) && SetOf(temps) <= h.Temps()
    requires Assemble(shape, ExprsIn(h.View(), temps)).Some?
    modifies h
    ensures h.Valid() && r != NULL && r !in old(h.View()) - SetOf(temps)
    ensures h.View() == (old(h.View()) - SetOf(temps))[r := ExprObj(Assemble(shape,
                                                                             ExprsIn(old(h.View()), temps)).value)]
    ensures h.Temps() == old(h.Temps()) - SetOf(temps) + if boxed then {} else {r}
  {
    hide Forest, Held, StackBlocks, SetOf, HomeOfObject, SlotMeanings, Targets;
    h.HeldAreLive();
    SetOfKids(temps);
    var kids := ReboxAll(h, temps);
    SetOfKids(kids);
    OwnAllMeans(h.View(), kids);
    var slots := seq(|kids|, i requires 0 <= i < |kids| => Own(kids[i]));
    assert slots == OwnAll(kids);
    if boxed {
      r := h.BoxNew(Node(shape), slots);
    } else {
      r := h.StackNew(Node(shape), slots);
    }
  }

  ghost predicate ExprPair(view: map<Ptr, Object>, left: Ptr, right: Ptr) {
    ExprArg(view, left) && ExprArg(view, right) && (left == NULL || left != right)
  }

  method ExprBinary(h: Heap, left: Ptr, op: BinaryOp, right: Ptr) returns (r: Ptr)
    requires h.Ready() && ExprPair(h.View(), left, right)
    modifies h
    ensures h.Ready() && (r == NULL <==> left == NULL || right == NULL)
    ensures r == NULL ==> h.View() == old(h.View()) - {left, right}
    ensures r != NULL ==>
              && r !in old(h.View()) - {left, right}
              && h.View() == (old(h.View()) - {left, right})[r :=
                   ExprObj(Binary(ExprAt(old(h.View()), left), op, ExprAt(old(h.View()), right)))]
  {
    hide Forest, Held, StackBlocks, Home, HomeOfObject;
    r := TwoOperands(h, BinaryShape(op), left, right);
  }

  /** Moves both operands to the stack, whether or not the other one is NULL. */
  method TakePair(h: Heap, left: Ptr, right: Ptr) returns (l: Ptr, r: Ptr)
    requires h.Ready() && ExprPair(h.View(), left, right)
    modifies h
    ensures h.Valid() && (l == NULL <==> left == NULL) && (r == NULL <==> right == NULL)
    ensures h.View() - {l, r} == old(h.View()) - {left, right}
    ensures l != NULL ==> l in h.View() && left in old(h.View()) && h.View()[l] == old(h.View())[left]
    ensures r != NULL ==> r in h.View() && right in old(h.View()) && h.View()[r] == old(h.View())[right]
    ensures l != NULL ==> l != r
    ensures h.Temps() == {l, r} - {NULL}
  {
    hide Forest, Held, StackBlocks, Home, HomeOfObject;
    ghost var view0 := h.View();
    l := TakeExpr(h, left);
    ghost var view1 := h.View();
    if right != NULL {
      KeptOutside(view0, view1, {left}, {l}, right);
    }
    h.HeldAreLive();
    r := TakeExpr(h, right);
    h.HeldAreLive();
    if l != NULL {
      KeptOutside(view1, h.View(), {right}, {r}, l);
    }
    MinusBoth(view0, view1, h.View(), left, l, {right}, {r});
    assert {l} + {r} == {l, r} && {left} + {right} == {left, right};
  }

  /** The end of scope of two optional values on the stack. */
  method DropBoth(h: Heap, l: Ptr, r: Ptr)
    requires h.Valid() && (l == NULL || l != r)
    requires l == NULL || (l in h.View() && h.View()[l].ExprObj?)
    requires r == NULL || (r in h.View() && h.View()[r].ExprObj?)
    modifies h
    ensures h.Valid() && h.View() == old(h.View()) - {l, r} && h.Temps() == old(h.Temps()) - {l, r}
  {
    hide Forest, Held, StackBlocks, Home, HomeOfObject;
    DropOptional(h, l);
    DropOptional(h, r);
  }

  lemma SetOfTwo(p: Ptr, q: Ptr)
    ensures SetOf([p, q]) == {p, q}
  {
    SetOfSnoc([p], q);
    SetOfCons([p]);
    SetOfCons([]);
    assert [p] + [q] == [p, q];
  }

  /** Consumes both operands; builds the node only if neither is NULL. */
  method TwoOperands(h: Heap, shape: Shape, left: Ptr, right: Ptr) returns (r: Ptr)
    requires h.Ready() && ExprPair(h.View(), left, right)
    requires shape.BinaryShape? || shape.CallShape?
    modifies h
    ensures h.Ready() && (r == NULL <==> left == NULL || right == NULL)
    ensures r == NULL ==> h.View() == old(h.View()) - {left, right}
    ensures r != NULL ==>
              && r !in old(h.View()) - {left, right}
              && h.View() == (old(h.View()) - {left, right})[r :=
                   ExprObj(NodeOf(shape, [ExprAt(old(h.View()), left), ExprAt(old(h.View()), right)]))]
  {
    hide Forest, Held, StackBlocks, Home, HomeOfObject, SetOf;
    var leftExpr, rightExpr := TakePair(h, left, right);
    h.HeldAreLive();
    if leftExpr == NULL || rightExpr == NULL {
      DropBoth(h, leftExpr, rightExpr);
      return NULL;
    }
    SetOfTwo(leftExpr, rightExpr);
    assert ExprsIn(h.View(), [leftExpr, rightExpr]) == [ExprAt(old(h.View()), left), ExprAt(old(h.View()), right)];
    r := BuildValue(h, shape, [leftExpr, rightExpr], true);
  }

  /** lancedb_expr_and. */
  method ExprAnd(h: Heap, left: Ptr, right: Ptr) returns (r: Ptr)
    requires h.Ready() && ExprPair(h.View(), left, right)
    modifies h
    ensures h.Ready() && (r == NULL <==> left == NULL || right == NULL)
    ensures r == NULL ==> h.View() == old(h.View()) - {left, right}
    ensures r != NULL ==>
              && r !in old(h.View()) - {left, right}
              && h.View() == (old(h.View()) - {left, right})[r :=
                   ExprObj(Binary(ExprAt(old(h.View()), left), And, ExprAt(old(h.View()), right)))]
  {
    hide Forest, Held, StackBlocks, Home, HomeOfObject;
    r := TwoOperands(h, BinaryShape(And), left, right);
  }

  /** lancedb_expr_or. */
  method ExprOr(h: Heap, left: Ptr, right: Ptr) returns (r: Ptr)
    requires h.Ready() && ExprPair(h.View(), left, right)
    modifies h
    ensures h.Ready() && (r == NULL <==> left == NULL || right == NULL)
    ensures r == NULL ==> h.View() == old(h.View()) - {left, right}
    ensures r != NULL ==>
              && r !in old(h.View()) - {left, right}
              && h.View() == (old(h.View()) - {left, right})[r :=
                   ExprObj(Binary(ExprAt(old(h.View()), left), Or, ExprAt(old(h.View()), right)))]
  {
    hide Forest, Held, StackBlocks, Home, HomeOfObject;
    r := TwoOperands(h, BinaryShape(Or), left, right);
  }

  /** lancedb_expr_not, lancedb_expr_is_null and lancedb_expr_is_not_null. */
  method ExprUnary(h: Heap, shape: Shape, arg: Ptr) returns (r: Ptr)
    requires h.Ready() && ExprArg(h.View(), arg) && shape in {NotShape, IsNullShape, IsNotNullShape}
    modifies h
    ensures h.Ready() && (r == NULL <==> arg == NULL)
    ensures r == NULL ==> h.View() == old(h.View())
    ensures r != NULL ==>
              && r !in old(h.View()) - {arg}
              && h.View() == (old(h.View()) - {arg})[r := ExprObj(NodeOf(shape, [ExprAt(old(h.View()), arg)]))]
  {
    hide Forest, Held, StackBlocks, Home, HomeOfObject, SetOf;
    if arg == NULL {
      return NULL;
    }
    var inner := TakeExpr(h, arg);
    SetOfCons([inner]);
    SetOfCons([]);
    assert SetOf([inner]) == {inner};
    assert ExprsIn(h.View(), [inner]) == [ExprAt(old(h.View()), arg)];
    r := BuildValue(h, shape, [inner], true);
  }

  method ExprArrayHas(h: Heap, arrayExpr: Ptr, valueExpr: Ptr, slot: bool) returns (r: Ptr, msg: Message)
    requires h.Ready() && ExprPair(h.View(), arrayExpr, valueExpr)
    modifies h
    ensures h.Ready() && (r == NULL <==> arrayExpr == NULL || valueExpr == NULL)
    ensures r == NULL ==>
              && MessageFits(old(h.View()) - {arrayExpr, valueExpr}, slot, INVALID_ARGUMENT, msg)
              && h.View() == Delivered(old(h.View()) - {arrayExpr, valueExpr}, msg, INVALID_ARGUMENT)
    ensures r != NULL ==>
              && msg == None && r !in old(h.View()) - {arrayExpr, valueExpr}
              && h.View() == (old(h.View()) - {arrayExpr, valueExpr})[r :=
                   ExprObj(Call(ArrayHas, [ExprAt(old(h.View()), arrayExpr), ExprAt(old(h.View()), valueExpr)]))]
  {
    hide Forest, Held, StackBlocks, Home, HomeOfObject;
    r := TwoOperands(h, CallShape(ArrayHas), arrayExpr, valueExpr);
    msg := None;
    if r == NULL {
      msg := SetMessage(h, slot, INVALID_ARGUMENT);
    }
  }

  method ExprClone(h: Heap, p: Ptr) returns (r: Ptr)
    requires h.Ready() && ExprArg(h.View(), p)
    modifies h
    ensures h.Ready() && (r == NULL <==> p == NULL)
    ensures r == NULL ==> h.View() == old(h.View())
    ensures r != NULL ==> r !in old(h.View()) && h.View() == old(h.View())[r := old(h.View())[p]]
  {
    hide Forest, Held, StackBlocks, Home, HomeOfObject;
    h.HeldAreLive();
    if p == NULL {
      return NULL;
    }
    r := h.CloneExpr(p);
  }

  /* ---------- operands gathered one by one ---------- */

  /** The call has moved the expressions at `gone` to the stack, as `temps` and in that order. */
  ghost predicate Gathered(view0: map<Ptr, Object>, gone: seq<Ptr>, view: map<Ptr, Object>, temps: seq<Ptr>) {
    && |gone| == |temps| && Distinct(temps)
    && AllExprsIn(view0, gone) && AllExprsIn(view, temps) && ExprsIn(view0, gone) == ExprsIn(view, temps)
    && view - SetOf(temps) == view0 - SetOf(gone)
  }

  lemma SetOfSnoc(ps: seq<Ptr>, p: Ptr)
    ensures SetOf(ps + [p]) == SetOf(ps) + {p}
  {
    assert forall q :: q in ps + [p] <==> q in ps || q == p;
  }

  lemma NothingGathered(view: map<Ptr, Object>)
    ensures Gathered(view, [], view, [])
  {
  }

  lemma GatheredOneMore(view0: map<Ptr, Object>, gone: seq<Ptr>, view: map<Ptr, Object>, temps: seq<Ptr>,
                        p: Ptr, view': map<Ptr, Object>, t: Ptr)
    requires Gathered(view0, gone, view, temps)
    requires p in view0 && p !in gone && view0[p].ExprObj?
    requires view' - {t} == view - {p} && t in view' && t !in view && p in view && view'[t] == view[p]
    ensures Gathered(view0, gone + [p], view', temps + [t])
    ensures t !in temps
  {
    hide SetOf;
    StillHeld(view0, view, gone, temps, p);
    forall i | 0 <= i < |temps| ensures temps[i] in view' && view'[temps[i]] == view[temps[i]] && temps[i] != t {
      TempIsNotHeldBefore(view0, view, gone, temps, p, i);
      assert temps[i] in view - {p};
    }
    assert ExprsIn(view', temps + [t]) == ExprsIn(view0, gone + [p]) by {
      forall i | 0 <= i < |temps| ensures view'[temps[i]].expr == view0[gone[i]].expr {
        assert ExprsIn(view0, gone)[i] == ExprsIn(view, temps)[i];
      }
    }
    SetOfSnoc(gone, p);
    SetOfSnoc(temps, t);
    MovedOne(view0, SetOf(gone), view, SetOf(temps), p, view', t);
  }

  lemma MovedOne(view0: map<Ptr, Object>, gone: set<Ptr>, view: map<Ptr, Object>, temps: set<Ptr>, p: Ptr,
                 view': map<Ptr, Object>, t: Ptr)
    requires view - temps == view0 - gone && view' - {t} == view - {p}
    ensures view' - (temps + {t}) == view0 - (gone + {p})
  {
    assert view' - (temps + {t}) == view' - {t} - temps;
    assert view - {p} - temps == view - temps - {p};
    assert view0 - gone - {p} == view0 - (gone + {p});
  }

  lemma StillHeld(view0: map<Ptr, Object>, view: map<Ptr, Object>, gone: seq<Ptr>, temps: seq<Ptr>, p: Ptr)
    requires Gathered(view0, gone, view, temps) && p in view0 && p !in gone
    ensures p in view && p !in temps && view[p] == view0[p]
  {
    assert p in view0 - SetOf(gone);
    assert p in view - SetOf(temps);
  }

  lemma TempIsNotHeldBefore(view0: map<Ptr, Object>, view: map<Ptr, Object>, gone: seq<Ptr>, temps: seq<Ptr>, p: Ptr,
                            i: nat)
    requires Gathered(view0, gone, view, temps) && p in view0 && p !in gone && i < |temps|
    ensures temps[i] != p
  {
    StillHeld(view0, view, gone, temps, p);
  }

  /** Moves one more expression to the stack. */
  method Gather(h: Heap, p: Ptr, temps: seq<Ptr>, ghost view0: map<Ptr, Object>, ghost gone: seq<Ptr>)
    returns (temps': seq<Ptr>)
    requires h.Valid() && Gathered(view0, gone, h.View(), temps) && h.Temps() == SetOf(temps)
    requires p in view0 && p !in gone && view0[p].ExprObj?
    modifies h
    ensures h.Valid() && Gathered(view0, gone + [p], h.View(), temps') && h.Temps() == SetOf(temps')
  {
    hide Forest, Held, StackBlocks, Gathered, SetOf;
    StillHeld(view0, h.View(), gone, temps, p);
    SetOfCons(temps);
    ghost var view := h.View();
    h.HeldAreLive();
    var t := h.Unbox(p);
    assert h.View() - {t} == view - {p};
    GatheredOneMore(view0, gone, view, temps, p, h.View(), t);
    SetOfSnoc(temps, t);
    temps' := temps + [t];
  }

  /** The end of scope of a Vec of expressions. */
  method DropAll(h: Heap, temps: seq<Ptr>)
    requires h.Valid() && AllExprsIn(h.View(), temps) && Distinct(temps)
    modifies h
    ensures h.Valid() && h.View() == old(h.View()) - SetOf(temps) && h.Temps() == old(h.Temps()) - SetOf(temps)
    decreases |temps|
  {
    hide Forest, Held, StackBlocks, SetOf, Felled, TreeDropped;
    SetOfCons(temps);
    if temps != [] {
      h.DropValue(temps[0]);
      DropAll(h, temps[1..]);
    }
  }

  /** The pointers of a list that are not NULL. */
  ghost function Present(ps: seq<Ptr>): (r: seq<Ptr>)
    ensures forall p :: p in r <==> p in ps && p != NULL
  {
    if ps == [] then [] else Present(ps[..|ps| - 1]) + (if ps[|ps| - 1] == NULL then [] else [ps[|ps| - 1]])
  }

  /** What lancedb_expr_in_list consumes: the expression if there is one, and then every list element. */
  ghost function InListConsumed(expr: Ptr, list: Option<seq<Ptr>>): seq<Ptr> {
    if expr == NULL then [] else [expr] + if list.None? then [] else Present(list.value)
  }

  ghost predicate InListArgs(view: map<Ptr, Object>, expr: Ptr, list: Option<seq<Ptr>>) {
    && ExprArg(view, expr)
    && (list.Some? ==> ExprArgs(view, list.value) && (expr == NULL || expr !in list.value))
  }

  /** Gives up on a call: the message is delivered and what was gathered goes out of scope. */
  method Reject(h: Heap, temps: seq<Ptr>, slot: bool, ghost view0: map<Ptr, Object>, ghost gone: seq<Ptr>)
    returns (msg: Message)
    requires h.Valid() && Gathered(view0, gone, h.View(), temps) && h.Temps() == SetOf(temps)
    modifies h
    ensures h.Ready()
    ensures MessageFits(view0 - SetOf(gone), slot, INVALID_ARGUMENT, msg)
    ensures h.View() == Delivered(view0 - SetOf(gone), msg, INVALID_ARGUMENT)
  {
    hide Forest, Held, StackBlocks, Home, HomeOfObject, SetOf;
    h.HeldAreLive();
    SetOfCons(temps);
    msg := SetMessage(h, slot, INVALID_ARGUMENT);
    DropAll(h, temps);
  }

  lemma AllPresent(ps: seq<Ptr>)
    requires NULL !in ps
    ensures Present(ps) == ps
  {
    if ps != [] {
      assert ps == ps[..|ps| - 1] + [ps[|ps| - 1]];
      AllPresent(ps[..|ps| - 1]);
    }
  }

  lemma PresentNext(ps: seq<Ptr>, i: nat)
    requires i < |ps|
    ensures Present(ps[..i + 1]) == Present(ps[..i]) + (if ps[i] == NULL then [] else [ps[i]])
    ensures NULL in ps[..i + 1] <==> NULL in ps[..i] || ps[i] == NULL
  {
    assert ps[..i + 1][..i] == ps[..i];
  }

  method ExprInList(h: Heap, expr: Ptr, list: Option<seq<Ptr>>, negated: bool, slot: bool)
    returns (r: Ptr, msg: Message)
    requires h.Ready() && InListArgs(h.View(), expr, list)
    modifies h
    ensures h.Ready()
    ensures r == NULL <==> expr == NULL || list.None? || NULL in list.value
    ensures var left := old(h.View()) - SetOf(InListConsumed(expr, list));
            if r == NULL then MessageFits(left, slot, INVALID_ARGUMENT, msg)
                && h.View() == Delivered(left, msg, INVALID_ARGUMENT)
            else
              && msg == None && r !in left && expr in old(h.View()) && AllExprsIn(old(h.View()), list.value)
              && h.View() == left[r := ExprObj(InList(ExprAt(old(h.View()), expr), ExprsIn(old(h.View()), list.value),
                                                      negated))]
  {
    hide Forest, Held, StackBlocks, Home, HomeOfObject, SetOf, Gathered, Distinct, Present, Delivered, MessageFits;
    ghost var view0 := h.View();
    SetOfCons([]);
    NothingGathered(view0);
    if expr == NULL {
      msg := Reject(h, [], slot, view0, []);
      return NULL, msg;
    }
    var temps := Gather(h, expr, [], view0, []);
    assert [] + [expr] == [expr];
    if list.None? {
      assert InListConsumed(expr, list) == [expr];
      msg := Reject(h, temps, slot, view0, [expr]);
      return NULL, msg;
    }
    var i, hasNull := 0, false;
    AllPresent([]);
    assert [expr] + Present(list.value[..0]) == [expr];
    while i < |list.value|
      invariant i <= |list.value|
      invariant h.Valid() && h.Temps() == SetOf(temps)
      invariant Gathered(view0, [expr] + Present(list.value[..i]), h.View(), temps)
      invariant hasNull <==> NULL in list.value[..i]
    {
      var item := list.value[i];
      PresentNext(list.value, i);
      if item != NULL {
        ghost var gone := [expr] + Present(list.value[..i]);
        assert item !in gone;
        temps := Gather(h, item, temps, view0, gone);
        assert gone + [item] == [expr] + Present(list.value[..i + 1]);
      } else {
        hasNull := true;
        assert Present(list.value[..i + 1]) == Present(list.value[..i]);
      }
      i := i + 1;
    }
    assert list.value[..i] == list.value;
    if hasNull {
      msg := Reject(h, temps, slot, view0, [expr] + Present(list.value));
      return NULL, msg;
    }
    AllPresent(list.value);
    InListMeans(view0, expr, list.value, h.View(), temps, negated);
    msg := None;
    r := BuildValue(h, InListShape(negated), temps, true);
  }

  lemma InListMeans(view0: map<Ptr, Object>, expr: Ptr, list: seq<Ptr>, view: map<Ptr, Object>, temps: seq<Ptr>,
                    negated: bool)
    requires Gathered(view0, [expr] + list, view, temps)
    ensures expr in view0 && view0[expr].ExprObj? && AllExprsIn(view0, list) && AllExprsIn(view, temps)
              && Distinct(temps)
    ensures Assemble(InListShape(negated), ExprsIn(view, temps))
              == Some(InList(view0[expr].expr, ExprsIn(view0, list), negated))
    ensures view - SetOf(temps) == view0 - SetOf([expr] + list)
  {
    assert ([expr] + list)[0] == expr;
    forall i | 0 <= i < |list| ensures list[i] in view0 && view0[list[i]].ExprObj? {
      assert ([expr] + list)[i + 1] == list[i];
    }
    var es := ExprsIn(view0, [expr] + list);
    assert es[0] == view0[expr].expr;
    assert es[1..] == ExprsIn(view0, list);
  }
}
