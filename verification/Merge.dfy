/**
 Merge insert (src/table.rs): the plan a configuration asks for, and a reference interpreter that says
 what a plan does to the rows of a table.
 */
module Merge {
  import opened Basics
  import opened Exprs
  import opened Objects

  /** Which matched rows are updated. */
  datatype Condition = Always | SqlCondition(text: string) | ExprCondition(expr: Expr)

  /** `update` is None when matched rows are kept as they are. */
  datatype Plan = Plan(on: seq<string>, update: Option<Condition>, insert: bool)

  /** LanceDBMergeInsertConfig, with the expression its pointer denotes. */
  datatype Settings = Settings(update: int, insert: int, sql: CArg, expr: Option<Expr>)

  /** The condition part of a configuration; None when it is rejected. */
  function ConditionOf(config: Settings): Option<Condition> {
    if config.expr.Some? then (if config.sql.NullArg? then Some(ExprCondition(config.expr.value)) else None)
    else
      match config.sql
      case NullArg => Some(Always)
      case BadUtf8 => None
      case Text(text) => Some(SqlCondition(text))
  }

  /** The plan for a configuration; a NULL configuration is an upsert. None when it is rejected. */
  function PlanOf(on: seq<string>, config: Option<Settings>): Option<Plan> {
    if config.None? then Some(Plan(on, Some(Always), true))
    else if config.value.update == 0 then Some(Plan(on, None, config.value.insert != 0))
    else if ConditionOf(config.value).None? then None
    else Some(Plan(on, ConditionOf(config.value), config.value.insert != 0))
  }

  /* ---------- what a plan does ---------- */

  type Key = seq<Option<Scalar>>

  /**
   What the plan leaves to the library: whether a condition holds for a target row and the source row it
   matches, and whether NULLs in the merge columns match each other.
   */
  datatype Rule = Rule(judge: (Condition, Row, Row) -> bool, nullsMatch: bool)

  ghost predicate Lawful(rule: Rule) {
    forall t, s :: rule.judge(Always, t, s)
  }

  /** The values of the merge columns. */
  function KeyOf(row: Row, on: seq<string>): Key {
    seq(|on|, i requires 0 <= i < |on| => if on[i] in row then Some(row[on[i]]) else None)
  }

  /** Rows with this key match the rows that have the same key; a key with a NULL may match nothing at all. */
  predicate Joinable(rule: Rule, key: Key) {
    rule.nullsMatch || None !in key
  }

  /** The first row with a given key. */
  function Find(rows: seq<Row>, on: seq<string>, key: Key): Option<Row> {
    if rows == [] then None
    else if KeyOf(rows[0], on) == key then Some(rows[0])
    else Find(rows[1..], on, key)
  }

  predicate HasKey(rows: seq<Row>, on: seq<string>, key: Key) {
    exists i :: 0 <= i < |rows| && KeyOf(rows[i], on) == key
  }

  /** Some row of the other side matches this one. */
  predicate HasMatch(rule: Rule, rows: seq<Row>, on: seq<string>, row: Row) {
    Joinable(rule, KeyOf(row, on)) && HasKey(rows, on, KeyOf(row, on))
  }

  function Updated(plan: Plan, rule: Rule, row: Row, source: seq<Row>): Row {
    var key := KeyOf(row, plan.on);
    var found := if Joinable(rule, key) then Find(source, plan.on, key) else None;
    if plan.update.Some? && found.Some? && rule.judge(plan.update.value, row, found.value) then found.value else row
  }

  function UpdateAll(plan: Plan, rule: Rule, target: seq<Row>, source: seq<Row>): (rows: seq<Row>)
    ensures |rows| == |target|
    ensures forall i :: 0 <= i < |target| ==> rows[i] == Updated(plan, rule, target[i], source)
  {
    seq(|target|, i requires 0 <= i < |target| => Updated(plan, rule, target[i], source))
  }

  /** The source rows that match no target row, in order. */
  function Unmatched(rule: Rule, target: seq<Row>, source: seq<Row>, on: seq<string>): seq<Row> {
    if source == [] then []
    else
      var last := source[|source| - 1];
      Unmatched(rule, target, source[..|source| - 1], on) + (if HasMatch(rule, target, on, last) then [] else [last])
  }

  /** Where they stand in the source. */
  function UnmatchedAt(rule: Rule, target: seq<Row>, source: seq<Row>, on: seq<string>): set<nat> {
    set i: nat | i < |source| && !HasMatch(rule, target, on, source[i])
  }

  /** The rows of the table after a merge. */
  function Merged(plan: Plan, rule: Rule, target: seq<Row>, source: seq<Row>): seq<Row> {
    UpdateAll(plan, rule, target, source) + (if plan.insert then Unmatched(rule, target, source, plan.on) else [])
  }

  /** No two rows can match the same row. */
  predicate UniqueKeys(rule: Rule, rows: seq<Row>, on: seq<string>) {
    forall i, j :: 0 <= i < j < |rows| && Joinable(rule, KeyOf(rows[i], on)) ==>
        KeyOf(rows[i], on) != KeyOf(rows[j], on)
  }

  lemma {:induction false} FindIsFirst(rows: seq<Row>, on: seq<string>, key: Key)
    ensures Find(rows, on, key).Some? <==> HasKey(rows, on, key)
    ensures var r := Find(rows, on, key); r.Some? ==> r.value in rows && KeyOf(r.value, on) == key
  {
    if rows != [] {
      FindIsFirst(rows[1..], on, key);
      if r0 :| 0 <= r0 < |rows| && KeyOf(rows[r0], on) == key {
        assert r0 > 0 ==> rows[1..][r0 - 1] == rows[r0];
      }
      if r1 :| 0 <= r1 < |rows[1..]| && KeyOf(rows[1..][r1], on) == key {
        assert rows[r1 + 1] == rows[1..][r1];
      }
    }
  }

  lemma {:induction false} UnmatchedAre(rule: Rule, target: seq<Row>, source: seq<Row>, on: seq<string>, row: Row)
    ensures row in Unmatched(rule, target, source, on) <==> row in source && !HasMatch(rule, target, on, row)
  {
    if source != [] {
      var n := |source| - 1;
      UnmatchedAre(rule, target, source[..n], on, row);
      assert source == source[..n] + [source[n]];
    }
  }

  lemma {:induction false} UnmatchedCount(rule: Rule, target: seq<Row>, source: seq<Row>, on: seq<string>)
    ensures |Unmatched(rule, target, source, on)| == |UnmatchedAt(rule, target, source, on)|
  {
    hide HasMatch;
    if source != [] {
      var n := |source| - 1;
      var before := source[..n];
      UnmatchedCount(rule, target, before, on);
      assert UnmatchedAt(rule, target, source, on) ==
             UnmatchedAt(rule, target, before, on) + (if HasMatch(rule, target, on, source[n]) then {} else {n});
    }
  }

  /** A matched row takes the values of its match, so an update never changes a key. */
  lemma UpdatesKeepKeys(plan: Plan, rule: Rule, row: Row, source: seq<Row>)
    ensures KeyOf(Updated(plan, rule, row, source), plan.on) == KeyOf(row, plan.on)
  {
    FindIsFirst(source, plan.on, KeyOf(row, plan.on));
  }

  /** Which keys the table has afterwards: its own, and those of the source if rows are inserted. */
  lemma KeysAfterMerge(plan: Plan, rule: Rule, target: seq<Row>, source: seq<Row>, key: Key)
    ensures HasKey(Merged(plan, rule, target, source), plan.on, key) <==>
              HasKey(target, plan.on, key) || (plan.insert && HasKey(source, plan.on, key))
  {
    var on, rows := plan.on, Merged(plan, rule, target, source);
    var more := Unmatched(rule, target, source, on);
    forall i | 0 <= i < |target| ensures KeyOf(rows[i], on) == KeyOf(target[i], on) {
      UpdatesKeepKeys(plan, rule, target[i], source);
    }
    if plan.insert {
      if i :| 0 <= i < |source| && KeyOf(source[i], on) == key {
        if !HasKey(target, on, key) {
          UnmatchedAre(rule, target, source, on, source[i]);
          var j :| 0 <= j < |more| && more[j] == source[i];
          assert rows[|target| + j] == source[i];
        }
      }
      if j :| |target| <= j < |rows| && KeyOf(rows[j], on) == key {
        assert rows[j] == more[j - |target|] && more[j - |target|] in more;
        UnmatchedAre(rule, target, source, on, rows[j]);
      }
    }
    if i :| 0 <= i < |target| && KeyOf(target[i], on) == key {
      assert KeyOf(rows[i], on) == key;
    }
  }

  /** Inserting adds one row for each source row that matches nothing; without it the number of rows stays the same. */
  lemma RowCount(plan: Plan, rule: Rule, target: seq<Row>, source: seq<Row>)
    ensures |Merged(plan, rule, target, source)| ==
              |target| + (if plan.insert then |UnmatchedAt(rule, target, source, plan.on)| else 0)
  {
    UnmatchedCount(rule, target, source, plan.on);
  }

  /** Rows are only ever added behind the old ones, and without updating the old ones stay as they are. */
  lemma OldRowsStay(plan: Plan, rule: Rule, target: seq<Row>, source: seq<Row>)
    ensures |Merged(plan, rule, target, source)| >= |target|
    ensures plan.update.None? ==> Merged(plan, rule, target, source)[..|target|] == target
  {
  }

  /** Rows have the same key exactly if they agree on every merge column, those that both lack included. */
  lemma KeysAgree(on: seq<string>, r: Row, s: Row)
    ensures KeyOf(r, on) == KeyOf(s, on) <==>
              forall i :: 0 <= i < |on| ==>
                (on[i] in r <==> on[i] in s) && (on[i] in r && on[i] in s ==> r[on[i]] == s[on[i]])
    ensures None in KeyOf(r, on) <==> exists i :: 0 <= i < |on| && on[i] !in r
  {
    var a, b := KeyOf(r, on), KeyOf(s, on);
    if a == b {
      assert forall i :: 0 <= i < |on| ==> a[i] == b[i];
    } else {
      assert |a| == |b|;
      var i :| 0 <= i < |on| && a[i] != b[i];
    }
    forall i | 0 <= i < |on| ensures a[i] == None <==> on[i] !in r {
    }
  }

  /** `k` is where the first row with this key stands, or the end if there is none. */
  ghost predicate FirstAt(rows: seq<Row>, on: seq<string>, key: Key, k: nat) {
    && k <= |rows|
    && (forall j :: 0 <= j < k ==> KeyOf(rows[j], on) != key)
    && (k < |rows| ==> KeyOf(rows[k], on) == key)
  }

  lemma {:induction false} FindsTheFirst(rows: seq<Row>, on: seq<string>, key: Key, k: nat)
    requires FirstAt(rows, on, key, k)
    ensures Find(rows, on, key) == if k < |rows| then Some(rows[k]) else None
  {
    hide KeyOf;
    if k > 0 {
      assert forall j :: 0 <= j < |rows[1..]| ==> rows[1..][j] == rows[j + 1];
      FindsTheFirst(rows[1..], on, key, k - 1);
    }
  }

  /**
   A row of the table becomes the first source row with its key exactly if the plan updates, the key can match and
   the condition holds for the two rows; otherwise it stays as it is.
   */
  lemma MatchedRows(plan: Plan, rule: Rule, target: seq<Row>, source: seq<Row>, i: nat, k: nat)
    requires i < |target| && FirstAt(source, plan.on, KeyOf(target[i], plan.on), k)
    ensures |Merged(plan, rule, target, source)| >= |target|
    ensures Merged(plan, rule, target, source)[i] ==
              if k < |source| && (rule.nullsMatch || None !in KeyOf(target[i], plan.on)) && plan.update.Some?
                 && rule.judge(plan.update.value, target[i], source[k])
              then source[k] else target[i]
  {
    FindsTheFirst(source, plan.on, KeyOf(target[i], plan.on), k);
  }

  /** With updating off, the condition is not even looked at: any two configurations agree. */
  lemma ConditionsNeedUpdates(on: seq<string>, insert: int, c1: Settings, c2: Settings)
    requires c1.update == c2.update == 0 && c1.insert == c2.insert
    ensures PlanOf(on, Some(c1)) == PlanOf(on, Some(c2)) && PlanOf(on, Some(c1)).Some?
  {
  }

  /** A NULL configuration does what both flags without a condition do, to every table. */
  lemma NullConfigIsUpsert(on: seq<string>, update: int, insert: int, rule: Rule, target: seq<Row>, source: seq<Row>)
    requires update != 0 && insert != 0
    ensures var p, q := PlanOf(on, None), PlanOf(on, Some(Settings(update, insert, NullArg, None)));
            p.Some? && q.Some? && Merged(p.value, rule, target, source) == Merged(q.value, rule, target, source)
  {
  }

  /** With both flags off nothing happens. */
  lemma NoFlagsNoChange(on: seq<string>, sql: CArg, expr: Option<Expr>, rule: Rule, target: seq<Row>, source: seq<Row>)
    ensures var p := PlanOf(on, Some(Settings(0, 0, sql, expr)));
            p.Some? && Merged(p.value, rule, target, source) == target
  {
    var p := PlanOf(on, Some(Settings(0, 0, sql, expr))).value;
    assert UpdateAll(p, rule, target, source) == target;
  }

  lemma {:induction false} UniqueIsFound(rule: Rule, rows: seq<Row>, on: seq<string>, i: nat)
    requires UniqueKeys(rule, rows, on) && i < |rows| && Joinable(rule, KeyOf(rows[i], on))
    ensures Find(rows, on, KeyOf(rows[i], on)) == Some(rows[i])
  {
    if i > 0 {
      assert rows[1..][i - 1] == rows[i];
      assert forall k :: 0 <= k < |rows[1..]| ==> rows[1..][k] == rows[k + 1];
      UniqueIsFound(rule, rows[1..], on, i - 1);
    }
  }

  lemma NothingUnmatched(rule: Rule, target: seq<Row>, source: seq<Row>, on: seq<string>)
    requires forall i :: 0 <= i < |source| ==> HasMatch(rule, target, on, source[i])
    ensures Unmatched(rule, target, source, on) == []
  {
    UnmatchedCount(rule, target, source, on);
    assert UnmatchedAt(rule, target, source, on) == {};
  }

  /**
   An unconditional upsert of rows with unique keys, done twice, changes nothing the second time exactly if
   every source row has a key that can match. A row that lacks a key column is inserted again and again.
   */
  lemma UpsertIsIdempotent(on: seq<string>, rule: Rule, target: seq<Row>, source: seq<Row>)
    requires UniqueKeys(rule, source, on) && Lawful(rule)
    ensures var plan := Plan(on, Some(Always), true);
            var once := Merged(plan, rule, target, source);
            Merged(plan, rule, once, source) == once <==>
              forall i :: 0 <= i < |source| ==> Joinable(rule, KeyOf(source[i], on))
  {
    var plan := Plan(on, Some(Always), true);
    var once := Merged(plan, rule, target, source);
    if k :| 0 <= k < |source| && !Joinable(rule, KeyOf(source[k], on)) {
      RowCount(plan, rule, once, source);
      assert k in UnmatchedAt(rule, once, source, on);
      assert |Merged(plan, rule, once, source)| > |once|;
    } else {
      SecondUpsertChangesNothing(on, rule, target, source);
    }
  }

  lemma SecondUpsertChangesNothing(on: seq<string>, rule: Rule, target: seq<Row>, source: seq<Row>)
    requires UniqueKeys(rule, source, on) && Lawful(rule)
    requires forall i :: 0 <= i < |source| ==> Joinable(rule, KeyOf(source[i], on))
    ensures var plan := Plan(on, Some(Always), true);
            var once := Merged(plan, rule, target, source);
            Merged(plan, rule, once, source) == once
  {
    var plan := Plan(on, Some(Always), true);
    var once := Merged(plan, rule, target, source);
    var more := Unmatched(rule, target, source, on);
    forall i | 0 <= i < |source| ensures HasMatch(rule, once, on, source[i]) {
      KeysAfterMerge(plan, rule, target, source, KeyOf(source[i], on));
    }
    NothingUnmatched(rule, once, source, on);
    forall i | 0 <= i < |once| ensures Updated(plan, rule, once[i], source) == once[i] {
      if i < |target| {
        UpdatesKeepKeys(plan, rule, target[i], source);
      } else {
        assert once[i] == more[i - |target|] && once[i] in more;
        UnmatchedAre(rule, target, source, on, once[i]);
        var k :| 0 <= k < |source| && source[k] == once[i];
        UniqueIsFound(rule, source, on, k);
      }
    }
    assert UpdateAll(plan, rule, once, source) == once;
  }

  /**
   After an upsert of rows with unique keys, every row that matches a source row is that source row, and there
   is one.
   */
  lemma UpsertStores(on: seq<string>, rule: Rule, target: seq<Row>, source: seq<Row>, k: nat)
    requires UniqueKeys(rule, source, on) && Lawful(rule) && k < |source| && Joinable(rule, KeyOf(source[k], on))
    ensures var rows := Merged(Plan(on, Some(Always), true), rule, target, source);
            && source[k] in rows
            && forall i :: 0 <= i < |rows| && KeyOf(rows[i], on) == KeyOf(source[k], on) ==> rows[i] == source[k]
  {
    var plan := Plan(on, Some(Always), true);
    var rows := Merged(plan, rule, target, source);
    var more := Unmatched(rule, target, source, on);
    UniqueIsFound(rule, source, on, k);
    forall i | 0 <= i < |rows| && KeyOf(rows[i], on) == KeyOf(source[k], on) ensures rows[i] == source[k] {
      if i < |target| {
        UpdatesKeepKeys(plan, rule, target[i], source);
      } else {
        assert rows[i] == more[i - |target|] && rows[i] in more;
        UnmatchedAre(rule, target, source, on, rows[i]);
        var j :| 0 <= j < |source| && source[j] == rows[i];
        UniqueIsFound(rule, source, on, j);
      }
    }
    KeysAfterMerge(plan, rule, target, source, KeyOf(source[k], on));
  }
}
