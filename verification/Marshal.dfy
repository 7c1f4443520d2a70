/**
 Lists handed to C: a malloc'ed array of pointers to strings, filled in a loop and rolled back by hand
 when a string cannot become a C string (src/connection.rs, src/index.rs, src/table.rs).

 Methods take a ghost `base`, any earlier state of the heap, and keep it `Apart`: they touch nothing
 that existed then. A caller that rolls back can so conclude that the heap is exactly what it was.
 */
module Marshal {
  import opened Basics
  import opened Objects
  import opened Memory
  import opened HeapModel
  import opened Messages
  import opened Errors

  predicate AllNulFree(names: seq<string>) {
    forall i :: 0 <= i < |names| ==> NulFree(names[i])
  }

  function StringCells(names: seq<string>): (cells: seq<SlotObj>)
    ensures |cells| == |names|
    ensures forall i :: 0 <= i < |names| ==> cells[i] == Is(LeafObj(CStr(names[i])))
  {
    seq(|names|, i requires 0 <= i < |names| => Is(LeafObj(CStr(names[i]))))
  }

  /** A filled C array of strings. */
  function StringList(names: seq<string>): Object {
    ArrayObj(|names|, StringCells(names))
  }

  lemma StringCellsNext(names: seq<string>, i: nat)
    requires i < |names|
    ensures StringCells(names[..i + 1]) == StringCells(names[..i]) + [Is(LeafObj(CStr(names[i])))]
  {
  }

  /** The cells while the first `i` strings are being freed. */
  function HalfFreed(names: seq<string>, i: nat): (cells: seq<SlotObj>)
    requires i <= |names|
    ensures |cells| == |names|
    ensures forall k :: 0 <= k < |names| ==> cells[k] == if k < i then Gone else Is(LeafObj(CStr(names[k])))
  {
    seq(|names|, k requires 0 <= k < |names| => if k < i then Gone else Is(LeafObj(CStr(names[k]))))
  }

  /** Releases the strings in the first cells of an array, in order. */
  method DropStrings(h: Heap, a: Ptr, count: nat, ghost capacity: nat, ghost names: seq<string>, ghost base: Blocks)
    requires h.Valid() && a in h.View() && a !in h.Temps() && a !in base && Apart(base, h.blocks)
    requires h.View()[a] == ArrayObj(capacity, StringCells(names)) && count == |names|
    modifies h
    ensures h.Valid() && h.Temps() == old(h.Temps()) && Apart(base, h.blocks)
    ensures h.View() == old(h.View())[a := ArrayObj(capacity, HalfFreed(names, |names|))]
  {
    hide Forest, Held, StackBlocks, Apart;
    ghost var view0 := h.View();
    var j := 0;
    assert HalfFreed(names, 0) == StringCells(names);
    while j < count
      invariant j <= count
      invariant h.Valid() && h.Temps() == old(h.Temps()) && Apart(base, h.blocks)
      invariant h.View() == view0[a := ArrayObj(capacity, HalfFreed(names, j))]
    {
      h.HeldAreLive();
      var s := h.ReadCell(a, j);
      if s != NULL {
        DropCell(h, a, j, base);
      }
      assert HalfFreed(names, j)[j := Gone] == HalfFreed(names, j + 1);
      j := j + 1;
    }
  }

  /** Moves one string out of an array and releases it. */
  method DropCell(h: Heap, a: Ptr, j: nat, ghost base: Blocks)
    requires h.Valid() && a in h.View() && a !in h.Temps() && a !in base && Apart(base, h.blocks)
    requires h.View()[a].ArrayObj? && j < |h.View()[a].slots| && h.View()[a].slots[j].Is?
    requires h.View()[a].slots[j].obj.LeafObj? && h.View()[a].slots[j].obj.leaf.CStr?
    modifies h
    ensures h.Valid() && h.Temps() == old(h.Temps()) && Apart(base, h.blocks)
    ensures h.View() == old(h.View())[a := ArrayObj(old(h.View())[a].capacity, old(h.View())[a].slots[j := Gone])]
  {
    hide Forest, Held, StackBlocks, Home, HomeOfObject;
    h.HeldAreLive();
    ghost var o, blocks := h.View()[a], h.blocks;
    var s := h.TakeCell(a, j);
    ApartTaken(base, blocks, a, j, s);
    hide Apart;
    Undone(old(h.View())[a := ArrayObj(o.capacity, o.slots[j := Gone])], s, o.slots[j].obj);
    h.CStringDrop(s);
  }

  /** Taking a string out of a newer array and dropping it touches nothing older. */
  lemma ApartTaken(base: Blocks, blocks: Blocks, a: Ptr, j: nat, s: Ptr)
    requires Apart(base, blocks) && a in blocks && a !in base && j < |blocks[a].slots| && blocks[a].slots[j] == Own(s)
    ensures Apart(base, blocks[a := blocks[a].(slots := blocks[a].slots[j := Moved])] - {s})
  {
    assert s !in base;
  }

  lemma HalfFreedOwnsNothing(capacity: nat, names: seq<string>)
    ensures OwnsNothing(ArrayObj(capacity, HalfFreed(names, |names|)))
  {
  }

  /** `libc::free` of an array allocated after `base`. */
  method FreeArray(h: Heap, a: Ptr, ghost base: Blocks)
    requires h.Valid() && a in h.View() && a !in base && Apart(base, h.blocks)
    requires HomeOfObject(h.View()[a]) == InMalloc && OwnsNothing(h.View()[a])
    modifies h
    ensures h.Valid() && h.Temps() == old(h.Temps()) && Apart(base, h.blocks) && h.View() == old(h.View()) - {a}
  {
    hide Forest, Held, StackBlocks, OwnsNothing;
    ghost var blocks := h.blocks;
    h.Free(a);
    ApartWithout(base, blocks, a);
  }

  lemma ApartOwn(base: Blocks, blocks: Blocks, a: Ptr, s: Ptr)
    requires Apart(base, blocks) && a in blocks && a !in base && s !in base
    ensures Apart(base, blocks[a := blocks[a].(slots := blocks[a].slots + [Own(s)])])
  {
    ApartWith(base, blocks, a, blocks[a].(slots := blocks[a].slots + [Own(s)]));
  }

  /** `*array.add(i) = CString::new(text).into_raw()`. */
  method PushString(h: Heap, a: Ptr, text: CText, ghost base: Blocks)
    requires h.Valid() && a in h.View() && a !in h.Temps() && a !in base && Apart(base, h.blocks)
    requires h.View()[a].ArrayObj? && |h.View()[a].slots| < h.View()[a].capacity
    modifies h
    ensures h.Valid() && h.Temps() == old(h.Temps()) && Apart(base, h.blocks)
    ensures var o := old(h.View())[a];
            h.View() == old(h.View())[a := ArrayObj(o.capacity, o.slots + [Is(LeafObj(CStr(text)))])]
  {
    hide Forest, Held, StackBlocks, NulFree, Home, HomeOfObject;
    h.HeldAreLive();
    ghost var blocks0 := h.blocks;
    var s := h.CStringNew(text);
    ApartWith(base, blocks0, s, h.blocks[s]);
    h.HeldAreLive();
    ghost var blocks := h.blocks;
    ApartOwn(base, blocks, a, s);
    h.Push(a, s);
  }

  /** Takes back the strings made so far, and the array. */
  method TakeBack(h: Heap, a: Ptr, i: nat, ghost names: seq<string>, ghost view0: map<Ptr, Object>,
                  ghost base: Blocks)
    requires h.Valid() && a !in h.Temps() && a !in base && Apart(base, h.blocks) && i <= |names|
    requires h.View() == view0[a := ArrayObj(|names|, StringCells(names[..i]))]
    modifies h
    ensures h.Valid() && h.Temps() == old(h.Temps()) && Apart(base, h.blocks) && h.View() == view0 - {a}
  {
    hide Forest, Held, StackBlocks, Apart, StringCells;
    DropStrings(h, a, i, |names|, names[..i], base);
    HalfFreedOwnsNothing(|names|, names[..i]);
    FreeArray(h, a, base);
  }

  /**
   The filling loop over a freshly malloc'ed array. The first string with a NUL byte ends it: the
   strings made so far and the array are released.
   */
  method FillStrings(h: Heap, a: Ptr, names: seq<string>, ghost base: Blocks) returns (ok: bool)
    requires h.Valid() && a in h.View() && a !in h.Temps() && a !in base && Apart(base, h.blocks)
    requires h.View()[a] == ArrayObj(|names|, [])
    modifies h
    ensures h.Valid() && h.Temps() == old(h.Temps()) && Apart(base, h.blocks)
    ensures ok <==> AllNulFree(names)
    ensures h.View() == if ok then old(h.View())[a := StringList(names)] else old(h.View()) - {a}
  {
    hide Forest, Held, StackBlocks, Apart, NulFree, Home;
    ghost var view0 := h.View();
    var i := 0;
    assert StringCells(names[..0]) == [];
    while i < |names|
      invariant i <= |names| && AllNulFree(names[..i])
      invariant h.Valid() && h.Temps() == old(h.Temps()) && Apart(base, h.blocks)
      invariant h.View() == view0[a := ArrayObj(|names|, StringCells(names[..i]))]
    {
      h.HeldAreLive();
      if !NulFree(names[i]) {
        TakeBack(h, a, i, names, view0, base);
        return false;
      }
      PushString(h, a, names[i], base);
      StringCellsNext(names, i);
      i := i + 1;
    }
    assert names[..i] == names;
    ok := true;
  }

  /** How a call that returns a list ended; `list` is None when `names_out` was left alone. */
  datatype ListReply = ListReply(status: Status, list: Option<Ptr>, count: Option<nat>)

  /** How a listing ends, given what the library returned and whether malloc grants memory. */
  ghost predicate Listing(view: map<Ptr, Object>, outcome: Result<seq<string>, Failure>, grant: bool, slot: bool,
                          view': map<Ptr, Object>, reply: ListReply) {
    match outcome
    case Err(f) =>
      IsFailure(reply.status, f) && !reply.status.code.Success? && Unlisted(view, slot, view', reply)
      && reply.count == None
    case Ok(names) =>
      && reply.count == Some(|names|)
      && (reply.status.code.Success? <==> names == [] || (grant && AllNulFree(names)))
      && if !reply.status.code.Success? then IsUnknown(reply.status) && Unlisted(view, slot, view', reply)
         else
           && reply.status == DONE && reply.list.Some?
           && if names == [] then reply.list.value == NULL && view' == view
              else
                && reply.list.value != NULL && reply.list.value !in view
                && view' == view[reply.list.value := StringList(names)]
  }

  ghost predicate Unlisted(view: map<Ptr, Object>, slot: bool, view': map<Ptr, Object>, reply: ListReply) {
    reply.list == None && Ended(view, slot, reply.status, view')
  }

  /**
   The part of lancedb_connection_table_names, lancedb_table_names_builder_execute,
   lancedb_connection_list_namespaces and lancedb_table_list_indices that follows the library call.
   `grant` is malloc's answer. Note that the count is written first, so it is also
   set when marshalling fails afterwards. After a failure every block is what it was, and after a success
   every older block is.
   */
  method ReturnStrings(h: Heap, outcome: Result<seq<string>, Failure>, grant: bool, slot: bool)
    returns (reply: ListReply)
    requires h.Ready()
    modifies h
    ensures h.Ready() && Listing(old(h.View()), outcome, grant, slot, h.View(), reply)
    ensures reply.status.code.Success? ==>
              Apart(old(h.blocks), h.blocks) && reply.list.Some? && reply.list.value !in old(h.blocks)
    ensures !reply.status.code.Success? ==> RolledBack(old(h.blocks), h.blocks, reply.status.msg, reply.status.text)
  {
    hide Forest, Held, StackBlocks, Apart, NulFree, Ended, RolledBack, StringList, IsFailure;
    h.HeldAreLive();
    NextIsFresh(h.blocks, h.next, h.owner, h.rank, h.obj);
    ApartFromItself(h.blocks);
    match outcome
    case Err(f) =>
      var status := HandleError(h, slot, f);
      reply := ListReply(status, None, None);
    case Ok(names) =>
      if names == [] {
        return ListReply(DONE, Some(NULL), Some(0));
      }
      var a := AllocateStrings(h, names, grant);
      if a != NULL {
        return ListReply(DONE, Some(a), Some(|names|));
      }
      var status := Fail(h, slot, ErrorCode.Unknown, UNKNOWN_ERROR);
      reply := ListReply(status, None, Some(|names|));
  }

  /** `libc::malloc(count * size_of::<*mut c_char>())`. */
  method NewArray(h: Heap, capacity: nat, grant: bool, ghost base: Blocks) returns (a: Ptr)
    requires h.Valid() && Apart(base, h.blocks)
    modifies h
    ensures h.Valid() && h.Temps() == old(h.Temps()) && Apart(base, h.blocks)
    ensures a != NULL <==> grant
    ensures a == NULL ==> h.View() == old(h.View()) && h.blocks == old(h.blocks)
    ensures a != NULL ==>
              && a !in old(h.View()) && a !in base && a !in old(h.blocks) && a !in h.Temps()
              && h.View() == old(h.View())[a := ArrayObj(capacity, [])]
  {
    hide Forest, Held, StackBlocks;
    h.HeldAreLive();
    a := h.Malloc(PtrArray(capacity), grant);
  }

  /** Allocates and fills the array, or leaves the heap exactly as it was and returns NULL. */
  method AllocateStrings(h: Heap, names: seq<string>, grant: bool) returns (a: Ptr)
    requires h.Ready()
    modifies h
    ensures h.Ready() && (a != NULL <==> grant && AllNulFree(names))
    ensures a == NULL ==> h.View() == old(h.View()) && h.blocks == old(h.blocks)
    ensures a != NULL ==>
              && a !in old(h.View()) && a !in old(h.blocks)
              && h.View() == old(h.View())[a := StringList(names)] && Apart(old(h.blocks), h.blocks)
  {
    hide Forest, Held, StackBlocks, Apart, NulFree, StringList, AllNulFree, OneOwner;
    ghost var base, owner0, view0 := h.blocks, h.owner, h.View();
    ApartFromItself(base);
    h.HeldAreLive();
    HereOwners(h);
    a := NewArray(h, |names|, grant, base);
    if a == NULL {
      return NULL;
    }
    var ok := FillStrings(h, a, names, base);
    if !ok {
      assert h.View() == view0;
      RestoredHere(h, base, owner0);
      a := NULL;
    }
  }

  lemma HereOwners(h: Heap)
    requires h.Valid()
    ensures OneOwner(h.blocks, h.owner)
  {
  }

  lemma RestoredHere(h: Heap, base: Blocks, owner0: map<Ptr, Owner>)
    requires h.Valid() && OneOwner(base, owner0) && Apart(base, h.blocks)
    requires forall p :: p in h.View() ==> p in base
    ensures h.blocks == base
  {
    hide OneOwner, Placed, Meant, Ranked;
    NextIsFresh(h.blocks, h.next, h.owner, h.rank, h.obj);
    RestoredExactly(base, owner0, h.blocks, h.owner, h.rank, h.obj);
  }

  /** lancedb_free_table_names, lancedb_free_namespace_list and lancedb_free_index_list. */
  method FreeStrings(h: Heap, list: Ptr, count: nat, ghost names: seq<string>, ghost base: Blocks)
    requires h.Ready() && Apart(base, h.blocks) && list !in base
    requires list == NULL || (list in h.View() && h.View()[list] == StringList(names) && count == |names|)
    modifies h
    ensures h.Ready() && Apart(base, h.blocks) && h.View() == old(h.View()) - {list}
  {
    hide Forest, Held, StackBlocks, Apart;
    h.HeldAreLive();
    if list != NULL {
      DropStrings(h, list, count, count, names, base);
      HalfFreedOwnsNothing(count, names);
      h.HeldAreLive();
      FreeArray(h, list, base);
    }
  }

  /** How a C program reads a list back. */
  method ReadStrings(h: Heap, list: Ptr, count: nat, ghost names: seq<string>) returns (texts: seq<string>)
    requires h.Valid() && list in h.obj && h.obj[list] == StringList(names) && count == |names|
    ensures texts == names
  {
    hide Forest, Held, StackBlocks;
    texts := [];
    var i := 0;
    while i < count
      invariant i <= count && texts == names[..i]
    {
      var s := h.ReadCell(list, i);
      var leaf := h.ReadLeaf(s);
      texts := texts + [leaf.text];
      i := i + 1;
    }
  }

  /**
   Marshalling is all or nothing and invertible: a list that was returned reads back as the names in
   order, and once it has been freed, with the count that was returned, every block is what it was. A
   list that could not be built has left no block behind.
   */
  method ListReadAndFree(h: Heap, names: seq<string>, grant: bool) returns (texts: Option<seq<string>>)
    requires h.Ready()
    modifies h
    ensures h.Ready() && h.View() == old(h.View()) && h.blocks == old(h.blocks)
    ensures texts == if names == [] || (grant && AllNulFree(names)) then Some(names) else None
  {
    hide Forest, Held, StackBlocks, Apart, NulFree, StringList, AllNulFree, OneOwner;
    ghost var base, owner0, view0 := h.blocks, h.owner, h.View();
    h.HeldAreLive();
    HereOwners(h);
    var reply := ReturnStrings(h, Ok(names), grant, false);
    if !reply.status.code.Success? {
      return None;
    }
    var all := [];
    if reply.list.value != NULL {
      h.HeldAreLive();
      all := ReadStrings(h, reply.list.value, reply.count.value, names);
    }
    FreeStrings(h, reply.list.value, reply.count.value, names, base);
    assert h.View() == view0;
    RestoredHere(h, base, owner0);
    texts := Some(all);
  }
}
