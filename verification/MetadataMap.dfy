/** Table metadata as a map: what set and delete commit to it and what get selects from it (src/table.rs). */
module MetadataMap {
  import opened Basics

  /** `UpdateMapEntry`: a value to store, or None to delete the key. */
  datatype Update = Update(key: string, value: Option<string>)

  type Entries = map<string, string>

  /** lance applies the entries of one commit in order. */
  function ApplyAll(m: Entries, us: seq<Update>): Entries {
    if us == [] then m
    else
      var rest, u := ApplyAll(m, us[..|us| - 1]), us[|us| - 1];
      if u.value.Some? then rest[u.key := u.value.value] else rest - {u.key}
  }

  /** The C arrays of a set or delete call; None where the pointer is NULL. */
  datatype MetadataCall =
    | SetCall(keys: Option<seq<CArg>>, values: Option<seq<CArg>>, count: nat)
    | DeleteCall(keys: Option<seq<CArg>>, count: nat)

  predicate InBounds(call: MetadataCall) {
    && (call.keys.Some? ==> call.count <= |call.keys.value|)
    && (call.SetCall? && call.values.Some? ==> call.count <= |call.values.value|)
  }

  predicate AllReadable(args: Option<seq<CArg>>, count: nat) {
    args.Some? && count <= |args.value| && forall i :: 0 <= i < count ==> args.value[i].Text?
  }

  /** The call gives at least one entry and every string in it can be read. */
  predicate Acceptable(call: MetadataCall) {
    && call.count > 0 && AllReadable(call.keys, call.count)
    && (call.SetCall? ==> AllReadable(call.values, call.count))
  }

  /** The entries an acceptable call commits. */
  function UpdatesOf(call: MetadataCall): (us: seq<Update>)
    requires Acceptable(call)
    ensures |us| == call.count
    ensures forall i :: 0 <= i < |us| ==>
              us[i] == Update(call.keys.value[i].text, if call.SetCall? then Some(call.values.value[i].text) else None)
  {
    seq(call.count, i requires 0 <= i < call.count =>
      Update(call.keys.value[i].text, if call.SetCall? then Some(call.values.value[i].text) else None))
  }

  /** Reads the C arrays entry by entry; None at the first string that is NULL or not UTF-8. */
  method ReadUpdates(call: MetadataCall) returns (r: Option<seq<Update>>)
    requires InBounds(call) && call.keys.Some? && (call.SetCall? ==> call.values.Some?) && call.count > 0
    ensures r.Some? <==> Acceptable(call)
    ensures r.Some? ==> r.value == UpdatesOf(call)
  {
    var entries: seq<Update> := [];
    var i := 0;
    while i < call.count
      invariant i <= call.count && |entries| == i
      invariant forall k :: 0 <= k < i ==> call.keys.value[k].Text? && (call.SetCall? ==> call.values.value[k].Text?)
      invariant forall k :: 0 <= k < i ==>
                  entries[k] == Update(call.keys.value[k].text, if call.SetCall? then Some(call.values.value[k].text)
                                       else None)
    {
      if !call.keys.value[i].Text? {
        return None;
      }
      var value := None;
      if call.SetCall? {
        if !call.values.value[i].Text? {
          return None;
        }
        value := Some(call.values.value[i].text);
      }
      entries := entries + [Update(call.keys.value[i].text, value)];
      i := i + 1;
    }
    r := Some(entries);
  }

  /* ---------- histories of entries ---------- */

  lemma {:induction false} ApplyAllAppends(m: Entries, us: seq<Update>, vs: seq<Update>)
    ensures ApplyAll(m, us + vs) == ApplyAll(ApplyAll(m, us), vs)
    decreases |vs|
  {
    if vs == [] {
      assert us + vs == us;
    } else {
      ApplyAllAppends(m, us, vs[..|vs| - 1]);
      assert (us + vs)[..|us + vs| - 1] == us + vs[..|vs| - 1];
    }
  }

  /** The last update of a key; None if there is none. */
  function LastUpdate(us: seq<Update>, key: string): Option<Update> {
    if us == [] then None
    else if us[|us| - 1].key == key then Some(us[|us| - 1])
    else LastUpdate(us[..|us| - 1], key)
  }

  lemma {:induction false} LastUpdateIsAt(us: seq<Update>, key: string, j: nat)
    requires j < |us| && us[j].key == key && forall k :: j < k < |us| ==> us[k].key != key
    ensures LastUpdate(us, key) == Some(us[j])
  {
    if j < |us| - 1 {
      LastUpdateIsAt(us[..|us| - 1], key, j);
    }
  }

  lemma {:induction false} NeverUpdated(us: seq<Update>, key: string)
    requires forall k :: 0 <= k < |us| ==> us[k].key != key
    ensures LastUpdate(us, key) == None
  {
    if us != [] {
      NeverUpdated(us[..|us| - 1], key);
    }
  }

  function Lookup(m: Entries, key: string): Option<string> {
    if key in m then Some(m[key]) else None
  }

  lemma {:induction false} LastUpdateWins(m: Entries, us: seq<Update>, key: string)
    ensures Lookup(ApplyAll(m, us), key) ==
              (if LastUpdate(us, key).Some? then LastUpdate(us, key).value.value else Lookup(m, key))
  {
    if us != [] {
      LastUpdateWins(m, us[..|us| - 1], key);
    }
  }

  /** Strings that arrived through the API hold no NUL byte. */
  predicate Clean(m: Entries) {
    forall key :: key in m ==> NulFree(key) && NulFree(m[key])
  }

  predicate CleanUpdates(us: seq<Update>) {
    forall i :: 0 <= i < |us| ==> NulFree(us[i].key) && (us[i].value.Some? ==> NulFree(us[i].value.value))
  }

  lemma {:induction false} ApplyingKeepsClean(m: Entries, us: seq<Update>)
    requires Clean(m) && CleanUpdates(us)
    ensures Clean(ApplyAll(m, us))
  {
    if us != [] {
      ApplyingKeepsClean(m, us[..|us| - 1]);
    }
  }

  /* ---------- reading ---------- */

  /** The existing filter keys, in filter order, with their values. */
  function Filtered(m: Entries, filter: seq<string>): seq<(string, string)> {
    if filter == [] then []
    else
      var last := filter[|filter| - 1];
      Filtered(m, filter[..|filter| - 1]) + (if last in m then [(last, m[last])] else [])
  }

  /** A hash map iterates over its entries in some order. */
  ghost predicate IsOrderOf(order: seq<string>, m: Entries) {
    && (forall i, j :: 0 <= i < j < |order| ==> order[i] != order[j])
    && (forall key :: key in order <==> key in m)
  }

  /** Iterating over all entries is filtering by all keys, so it lists every entry exactly once. */
  lemma {:induction false} AllKeysAreKept(m: Entries, order: seq<string>)
    requires forall key :: key in order ==> key in m
    ensures var es := Filtered(m, order);
            |es| == |order| && forall i :: 0 <= i < |es| ==> es[i] == (order[i], m[order[i]])
  {
    if order != [] {
      var n := |order| - 1;
      assert order == order[..n] + [order[n]];
      AllKeysAreKept(m, order[..n]);
    }
  }

  /** An unfiltered get returns a permutation of the map. */
  lemma UnfilteredIsPermutation(m: Entries, order: seq<string>)
    requires IsOrderOf(order, m)
    ensures var es := Filtered(m, order);
            && (forall i, j :: 0 <= i < j < |es| ==> es[i] != es[j])
            && (forall key, value :: (key, value) in es <==> key in m && m[key] == value)
  {
    AllKeysAreKept(m, order);
    var es := Filtered(m, order);
    forall key | key in m ensures (key, m[key]) in es {
      assert key in order;
      var i :| 0 <= i < |order| && order[i] == key;
      assert es[i] == (key, m[key]);
    }
  }

  /** A filtered get returns exactly the filter keys that exist: none is lost, none is invented, order is kept. */
  lemma {:induction false} FilteredIsExact(m: Entries, filter: seq<string>)
    ensures forall e :: e in Filtered(m, filter) <==> e.0 in filter && e.0 in m && m[e.0] == e.1
    ensures (forall key :: key in filter ==> key in m) ==> |Filtered(m, filter)| == |filter|
  {
    if filter != [] {
      var n := |filter| - 1;
      FilteredIsExact(m, filter[..n]);
      assert filter == filter[..n] + [filter[n]];
    }
  }

  /** Filter order is kept: filtering a concatenation is concatenating what each part keeps. */
  lemma {:induction false} FilteredAppends(m: Entries, f1: seq<string>, f2: seq<string>)
    ensures Filtered(m, f1 + f2) == Filtered(m, f1) + Filtered(m, f2)
    decreases |f2|
  {
    if f2 == [] {
      assert f1 + f2 == f1;
    } else {
      var n := |f2| - 1;
      FilteredAppends(m, f1, f2[..n]);
      assert (f1 + f2)[..|f1 + f2| - 1] == f1 + f2[..n] && (f1 + f2)[|f1 + f2| - 1] == f2[n];
      var last := if f2[n] in m then [(f2[n], m[f2[n]])] else [];
      assert Filtered(m, f1 + f2) == Filtered(m, f1 + f2[..n]) + last;
      assert Filtered(m, f2) == Filtered(m, f2[..n]) + last;
    }
  }

  /** `at` are the positions of the filter keys that exist, in ascending order, and `es` the entries they pick. */
  ghost predicate Picks(m: Entries, filter: seq<string>, es: seq<(string, string)>, at: seq<nat>) {
    && |at| == |es| && (forall i, j :: 0 <= i < j < |at| ==> at[i] < at[j])
    && (forall i :: 0 <= i < |at| ==>
          at[i] < |filter| && filter[at[i]] in m && es[i] == (filter[at[i]], m[filter[at[i]]]))
    && (forall k :: 0 <= k < |filter| && filter[k] in m ==> k in at)
  }

  lemma NextPick(m: Entries, filter: seq<string>, es: seq<(string, string)>, at: seq<nat>, key: string)
    requires Picks(m, filter, es, at)
    ensures key !in m ==> Picks(m, filter + [key], es, at)
    ensures key in m ==> Picks(m, filter + [key], es + [(key, m[key])], at + [|filter|])
  {
    var filter', at' := filter + [key], at + [|filter|];
    assert at'[|at|] == |filter|;
    forall k | 0 <= k < |filter'| && filter'[k] in m ensures key in m ==> k in at' {
      if k < |filter| {
        assert filter[k] in m;
        var i :| 0 <= i < |at| && at[i] == k;
        assert at'[i] == k;
      }
    }
  }

  lemma NothingPicked(m: Entries)
    ensures Picks(m, [], [], [])
  {
  }

  /** Filtering picks the positions of the keys that exist, in ascending order, and leaves none out. */
  lemma {:induction false} FilteredPicks(m: Entries, filter: seq<string>) returns (at: seq<nat>)
    ensures Picks(m, filter, Filtered(m, filter), at)
  {
    hide Picks;
    if filter == [] {
      at := [];
      NothingPicked(m);
    } else {
      var n := |filter| - 1;
      at := FilteredPicks(m, filter[..n]);
      NextPick(m, filter[..n], Filtered(m, filter[..n]), at, filter[n]);
      assert filter[..n] + [filter[n]] == filter;
      if filter[n] in m {
        at := at + [n];
      } else {
        assert Filtered(m, filter) == Filtered(m, filter[..n]);
      }
    }
  }

  /** Entries of a clean map survive the conversion to C strings unchanged. */
  lemma FilteredIsClean(m: Entries, filter: seq<string>)
    requires Clean(m)
    ensures forall i :: 0 <= i < |Filtered(m, filter)| ==>
              NulFree(Filtered(m, filter)[i].0) && NulFree(Filtered(m, filter)[i].1)
  {
    FilteredIsExact(m, filter);
    var es := Filtered(m, filter);
    forall i | 0 <= i < |es| ensures NulFree(es[i].0) && NulFree(es[i].1) {
      assert es[i] in es;
    }
  }
}
