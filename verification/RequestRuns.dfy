/**
 Executed requests in plain words, for whole runs: each field holds the argument of the last call the
 library accepted for it, or nothing since the query was made.
 */
module RequestRuns {
  import opened Basics
  import opened Exprs
  import opened Objects
  import opened Errors
  import opened JsonMatches
  import opened Requests
  import opened QueryApi
  import opened Calls
  import opened Protocol
  import opened Spelling

  datatype Field = TheLimit | TheOffset | TheColumns | TheSql | TheExpr | TheVectorColumn | TheDistance | TheNprobes
                 | TheRefineFactor | TheEf

  function FieldOf(s: Setting): Field {
    match s
    case Limit(_) => TheLimit
    case Offset(_) => TheOffset
    case Select(_) => TheColumns
    case Where(_) => TheSql
    case DfFilter(_) => TheExpr
    case SearchColumn(_) => TheVectorColumn
    case Distance(_) => TheDistance
    case Nprobes(_) => TheNprobes
    case RefineFactor(_) => TheRefineFactor
    case Ef(_) => TheEf
  }

  /** The call was accepted for this field of the query. */
  ghost predicate AcceptedFor(event: Event, q: Ptr, f: Field) {
    && event.call.Queries? && event.reply.Setter? && event.reply.code.Success?
    && match event.call.q
       case Number(q', s, _) => q' == q && FieldOf(s) == f
       case TextField(q', _, isFilter, _) => q' == q && f == if isFilter then TheSql else TheVectorColumn
       case Columns(q', _, _) => q' == q && f == TheColumns
       case ExprFilter(q', _, _) => q' == q && f == TheExpr
       case _ => false
  }

  /** The request holds what the call was given; an expression filter beats an SQL filter. */
  ghost predicate Shows(r: Request, call: QueryCall, filter: Expr) {
    match call
    case Number(_, Limit(n), _) => r.limit == Some(n)
    case Number(_, Offset(n), _) => r.offset == Some(n)
    case Number(_, Distance(d), _) => r.distanceType == Some(d)
    case Number(_, Nprobes(n), _) => r.nprobes == Some(n)
    case Number(_, RefineFactor(n), _) => r.refineFactor == Some(n)
    case Number(_, Ef(n), _) => r.ef == Some(n)
    case TextField(_, Text(text), true, _) => r.filter.DataFusion? || r.filter == Sql(text)
    case TextField(_, Text(text), false, _) => r.column == Some(text)
    case Columns(_, Some(names), _) =>
      && r.select.Some? && |r.select.value| == |names|
      && forall i :: 0 <= i < |names| ==> names[i].Text? && names[i].text == r.select.value[i]
    case ExprFilter(_, _, _) => r.filter == DataFusion(filter)
    case _ => false
  }

  predicate Lacks(r: Request, f: Field) {
    match f
    case TheLimit => r.limit.None?
    case TheOffset => r.offset.None?
    case TheColumns => r.select.None?
    case TheSql => !r.filter.Sql?
    case TheExpr => !r.filter.DataFusion?
    case TheVectorColumn => r.column.None?
    case TheDistance => r.distanceType.None?
    case TheNprobes => r.nprobes.None?
    case TheRefineFactor => r.refineFactor.None?
    case TheEf => r.ef.None?
  }

  /* ---------- histories ---------- */

  predicate Untouched(calls: seq<SetterCall>, k: nat, f: Field) {
    forall j :: k <= j < |calls| && calls[j].Accepted? ==> FieldOf(calls[j].setting) != f
  }

  predicate HoldsSetting(r: Request, s: Setting) {
    match s
    case Limit(n) => r.limit == Some(n)
    case Offset(n) => r.offset == Some(n)
    case Select(names) => r.select == Some(names)
    case Where(text) => r.filter.DataFusion? || r.filter == Sql(text)
    case DfFilter(e) => r.filter == DataFusion(e)
    case SearchColumn(name) => r.column == Some(name)
    case Distance(d) => r.distanceType == Some(d)
    case Nprobes(n) => r.nprobes == Some(n)
    case RefineFactor(n) => r.refineFactor == Some(n)
    case Ef(n) => r.ef == Some(n)
  }

  lemma SettingIsHeld(q: QueryState, s: Setting)
    ensures HoldsSetting(RequestOf(Apply(q, s)), s)
  {
  }

  /** A setter writes its own field only. */
  lemma OtherFieldsStay(q: QueryState, s: Setting, held: Setting, f: Field)
    ensures var r, r' := RequestOf(q), RequestOf(Apply(q, s));
            && (FieldOf(s) != FieldOf(held) && HoldsSetting(r, held) ==> HoldsSetting(r', held))
            && (FieldOf(s) != f && Lacks(r, f) ==> Lacks(r', f))
            && r'.table == r.table && r'.vector == r.vector
  {
  }

  lemma {:induction false} LastSettingDecides(h: QueryHistory, k: nat)
    requires k < |h.calls| && h.calls[k].Accepted? && Untouched(h.calls, k + 1, FieldOf(h.calls[k].setting))
    ensures HoldsSetting(RequestOf(StateOf(h)), h.calls[k].setting)
    decreases |h.calls|
  {
    hide Apply, RequestOf, HoldsSetting, FieldOf;
    var n := |h.calls| - 1;
    var front, last := h.(calls := h.calls[..n]), h.calls[n];
    if k == n {
      SettingIsHeld(StateOf(front), last.setting);
    } else {
      assert h.calls[..n][k] == h.calls[k];
      LastSettingDecides(front, k);
      if last.Accepted? {
        OtherFieldsStay(StateOf(front), last.setting, h.calls[k].setting, TheLimit);
      }
    }
  }

  lemma {:induction false} UnsetIsLacking(h: QueryHistory, f: Field)
    requires Untouched(h.calls, 0, f)
    ensures Lacks(RequestOf(StateOf(h)), f)
    ensures RequestOf(StateOf(h)).table == h.table && RequestOf(StateOf(h)).vector == h.vector
    decreases |h.calls|
  {
    hide Apply, RequestOf, Lacks, FieldOf;
    if h.calls == [] {
      NothingIsSet(h, f);
    } else {
      var n := |h.calls| - 1;
      var front, last := h.(calls := h.calls[..n]), h.calls[n];
      UnsetIsLacking(front, f);
      if last.Accepted? {
        OtherFieldsStay(StateOf(front), last.setting, last.setting, f);
      }
    }
  }

  lemma NothingIsSet(h: QueryHistory, f: Field)
    requires h.calls == []
    ensures Lacks(RequestOf(StateOf(h)), f)
    ensures RequestOf(StateOf(h)).table == h.table && RequestOf(StateOf(h)).vector == h.vector
  {
  }

  /* ---------- runs ---------- */

  lemma SetterEvents(s: State, event: Event, s': State, engines: nat -> Engine, q: Ptr, den: Ptr -> Expr)
    requires Stepped(s, event.call, event.reply, s', engines) && SetsQuery(event, q)
    ensures var c := SettingOf(event.call.q, den);
            if c.Accepted? then AcceptedFor(event, q, FieldOf(c.setting)) else forall f :: !AcceptedFor(event, q, f)
  {
    hide ExprStep, TableStep, ConnectionStep, FreeStep, MatchesStep, ToArrowStep, ExecuteStep, Apply;
  }

  ghost predicate LastAt(calls: seq<SetterCall>, i: nat, c: SetterCall, f: Field) {
    i < |calls| && calls[i] == c && c.Accepted? && FieldOf(c.setting) == f && Untouched(calls, i + 1, f)
  }

  /** What the setter call of event `k` amounts to. */
  ghost function SetAt(trace: seq<Event>, k: nat): SetterCall
    requires k < |trace| && trace[k].call.Queries? && IsSetter(trace[k].call.q)
  {
    SettingOf(trace[k].call.q, p => Spell(trace[..k], p))
  }

  /** Since event `k`, no call has made the query anew or has been accepted for the field. */
  ghost predicate QuietSince(trace: seq<Event>, k: nat, n: nat, q: Ptr, f: Field)
    requires n <= |trace|
  {
    forall j :: k < j < n ==> !MakesQuery(trace[j], q) && !AcceptedFor(trace[j], q, f)
  }

  ghost predicate Remembers(trace: seq<Event>, k: nat, h: QueryHistory, q: Ptr, f: Field)
    requires k < |trace|
  {
    if MakesQuery(trace[k], q) then
      && Untouched(h.calls, 0, f) && h.table == SpellTable(trace[..k], trace[k].call.q.table)
      && h.vector == (if trace[k].call.q.wantsVector then trace[k].call.q.vector else None)
    else SetsQuery(trace[k], q) && exists i: nat :: LastAt(h.calls, i, SetAt(trace, k), f)
  }

  lemma NextCall(trace: seq<Event>, k: nat, h: QueryHistory, q: Ptr, f: Field, c: SetterCall)
    requires k < |trace| && Remembers(trace, k, h, q, f)
    requires c.Accepted? ==> FieldOf(c.setting) != f
    ensures Remembers(trace, k, h.(calls := h.calls + [c]), q, f)
  {
    hide Spell, SpellTable, SettingOf;
    var calls := h.calls + [c];
    if !MakesQuery(trace[k], q) {
      var i: nat :| LastAt(h.calls, i, SetAt(trace, k), f);
      assert LastAt(calls, i, SetAt(trace, k), f);
    }
  }

  lemma FirstCall(trace: seq<Event>, k: nat, h: QueryHistory, q: Ptr, f: Field)
    requires k < |trace| && !MakesQuery(trace[k], q) && SetsQuery(trace[k], q) && AcceptedFor(trace[k], q, f)
    requires var c := SetAt(trace, k);
             if c.Accepted? then AcceptedFor(trace[k], q, FieldOf(c.setting)) else !AcceptedFor(trace[k], q, f)
    ensures Remembers(trace, k, h.(calls := h.calls + [SetAt(trace, k)]), q, f)
  {
    hide Spell, SpellTable, SettingOf;
    assert LastAt(h.calls + [SetAt(trace, k)], |h.calls|, SetAt(trace, k), f);
  }

  lemma AcceptedAreSetters(event: Event, q: Ptr, f: Field)
    requires AcceptedFor(event, q, f)
    ensures SetsQuery(event, q) && !MakesQuery(event, q)
  {
  }

  lemma {:induction false} HistoriesRemember(trace: seq<Event>, states: seq<State>, engines: nat -> Engine, k: nat,
                                             n: nat, q: Ptr, f: Field)
    requires Happened(trace, states, engines) && k < n <= |trace|
    requires MakesQuery(trace[k], q) || AcceptedFor(trace[k], q, f)
    requires QuietSince(trace, k, n, q, f)
    ensures Remembers(trace, k, SpellQuery(trace[..n], q), q, f)
    decreases n
  {
    hide Legal, Stepped, SettingOf, MakesQuery, AcceptedFor, LastAt;
    var last := trace[n - 1];
    var before := trace[..n - 1];
    assert trace[..n][..n - 1] == before && trace[..n][n - 1] == last;
    assert StepOf(trace, states, n - 1, engines);
    var den := p => Spell(before, p);
    if SetsQuery(last, q) {
      SetterEvents(states[n - 1], last, states[n], engines, q, den);
    }
    if k < n - 1 {
      HistoriesRemember(trace, states, engines, k, n - 1, q, f);
      if SetsQuery(last, q) {
        NextCall(trace, k, SpellQuery(before, q), q, f, SettingOf(last.call.q, den));
      }
    } else if !MakesQuery(last, q) {
      AcceptedAreSetters(last, q, f);
      FirstCall(trace, k, SpellQuery(before, q), q, f);
    }
  }

  predicate IsNumber(s: Setting) {
    !s.Select? && !s.Where? && !s.DfFilter? && !s.SearchColumn?
  }

  lemma NumbersAreNumbers(view: View, call: Calls.Call)
    requires Legal(view, call) && call.Queries? && call.q.Number?
    ensures IsNumber(call.q.setting)
  {
    hide LegalExpr, LegalTable, LegalConnection, LegalFree;
  }

  /**
   The request of an execution, field by field: what the last call accepted for the field was given, or nothing if
   there has been none since the query was made. Event `k` is that call, or the one that made the query.
   */
  lemma RequestsHoldTheLastAcceptedCalls(trace: seq<Event>, states: seq<State>, engines: nat -> Engine, i: nat, k: nat,
                                         f: Field)
    requires Happened(trace, states, engines) && k < i < |trace|
    requires trace[i].call.Queries? && trace[i].call.q.Execute? && trace[i].call.q.q != NULL
    requires var q := trace[i].call.q.q;
             (MakesQuery(trace[k], q) || AcceptedFor(trace[k], q, f)) && QuietSince(trace, k, i, q, f)
    ensures trace[i].reply.Executed? && trace[i].reply.request.Some?
    ensures var q, made, r := trace[i].call.q.q, trace[k].call.q, trace[i].reply.request.value;
            if MakesQuery(trace[k], q) then
              && Lacks(r, f) && r.table == SpellTable(trace[..k], made.table)
              && r.vector == (if made.wantsVector then made.vector else None)
            else Shows(r, made, if made.ExprFilter? then Spell(trace[..k], made.expr) else Literal(Bool(false)))
  {
    hide Legal, Stepped, MakesQuery, AcceptedFor, FromHistory, SpellTable, Spell, QuietSince;
    var q := trace[i].call.q.q;
    ExecutedRequestsAreTheLastWritten(trace, states, engines, i);
    HistoriesRemember(trace, states, engines, k, i, q, f);
    var h := SpellQuery(trace[..i], q);
    LastWriteWins(h.table, h.vector, h.calls);
    if MakesQuery(trace[k], q) {
      UnsetIsLacking(h, f);
    } else {
      var j: nat :| LastAt(h.calls, j, SetAt(trace, k), f);
      LastSettingDecides(h, j);
      assert StepOf(trace, states, k, engines);
      if trace[k].call.q.Number? {
        NumbersAreNumbers(states[k].view, trace[k].call);
      }
      SettingsAreShown(RequestOf(StateOf(h)), trace[k].call.q, p => Spell(trace[..k], p));
    }
  }

  lemma SettingsAreShown(r: Request, call: QueryCall, den: Ptr -> Expr)
    requires IsSetter(call) && SettingOf(call, den).Accepted? && HoldsSetting(r, SettingOf(call, den).setting)
    requires call.Number? ==> IsNumber(call.setting)
    ensures Shows(r, call, if call.ExprFilter? then den(call.expr) else Literal(Bool(false)))
  {
  }
}
