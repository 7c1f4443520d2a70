/**
 The process heap as the C API sees it: boxes, C strings and malloc'ed blocks.

 Each primitive models one allocation, release or pointer store of the Rust code. Its precondition is
 the memory rule the code must respect (release a live block, with the mechanism that created it, once;
 read only what was written), so verifying a caller shows that it respects the rule. Pointers are
 allocation identities and are never reused; a Box, CString or Vec allocation succeeds or aborts,
 while malloc may return NULL.
 */
module HeapModel {
  import opened Basics
  import opened Exprs
  import opened Objects
  import opened Memory

  class Heap {
    var blocks: Blocks
    var next: Ptr
    ghost var owner: map<Ptr, Owner>
    ghost var rank: map<Ptr, nat>
    ghost var obj: map<Ptr, Object>

    ghost predicate Valid()
      reads this
    {
      Forest(blocks, next, owner, rank, obj)
    }

    /** What the caller and the call in progress hold, and what each held block means. */
    ghost function View(): map<Ptr, Object>
      reads this
    {
      Held(owner, obj)
    }

    /** The held values that are on the stack of the call in progress. */
    ghost function Temps(): set<Ptr>
      reads this
    {
      StackBlocks(blocks)
    }

    /** The state between two calls: no value is left on a stack. */
    ghost predicate Ready()
      reads this
    {
      Valid() && Temps() == {}
    }

    constructor ()
      ensures Ready() && View() == map[] && blocks == map[]
    {
      blocks, next := map[], 1;
      owner, rank, obj := map[], map[], map[];
    }

    /** The call may move the targets of these slots into another block. */
    ghost predicate Holds(slots: seq<Slot>)
      reads this
    {
      && DistinctTargets(slots)
      && forall i :: 0 <= i < |slots| && slots[i].Own? ==> slots[i].p in View() && slots[i].p !in Temps()
    }

    lemma HeldMeanings(slots: seq<Slot>)
      requires Valid() && Holds(slots)
      ensures SlotMeanings(obj, slots) == SlotMeanings(View(), slots)
      ensures CanOwn(blocks, owner, slots)
    {
      FrameMeanings(obj, View(), slots);
    }

    /* ---------- the two basic changes ---------- */

    ghost predicate CanStore(q: Ptr, b: Block)
      reads this
    {
      && q !in blocks && NULL < q <= next
      && Holds(b.slots)
      && (b.place == Home(b.tag) || (b.place == OnStack && Home(b.tag) == InBox))
      && Meaning(b.tag, SlotMeanings(View(), b.slots)) != Junk
    }

    lemma StoreKeepsValid(q: Ptr, b: Block)
      requires Valid() && CanStore(q, b)
      ensures rank.Keys == blocks.Keys
      ensures var o := Meaning(b.tag, SlotMeanings(View(), b.slots));
              var owner', obj' := Adopted(owner, q, b.slots), obj[q := o];
              && Forest(blocks[q := b], if q == next then next + 1 else next, owner',
                        rank[q := MaxRank(rank, b.slots) + 1], obj')
              && Held(owner', obj') == (View() - Targets(b.slots))[q := o]
      ensures StackBlocks(blocks[q := b]) == Temps() + (if b.place == OnStack then {q} else {})
    {
      hide Forest, Held, Adopted, Meaning, SlotMeanings, MaxRank, CanOwn;
      HeldMeanings(b.slots);
      NextIsFresh(blocks, next, owner, rank, obj);
      StoreKeepsForest(blocks, next, owner, rank, obj, q, b, if q == next then next + 1 else next);
    }

    method StoreAt(q: Ptr, b: Block)
      requires Valid() && CanStore(q, b)
      modifies this
      ensures Valid() && next == (if q == old(next) then old(next) + 1 else old(next))
      ensures View() == (old(View()) - Targets(b.slots))[q := Meaning(b.tag, SlotMeanings(old(View()), b.slots))]
      ensures Temps() == old(Temps()) + (if b.place == OnStack then {q} else {})
      ensures blocks == old(blocks)[q := b]
      ensures obj == old(obj)[q := Meaning(b.tag, SlotMeanings(old(View()), b.slots))]
      ensures rank.Keys == blocks.Keys && forall p :: p in old(rank) && p != q ==> p in rank && rank[p] == old(rank)[p]
    {
      hide Forest, Held, Adopted, Meaning, SlotMeanings, StackBlocks, MaxRank;
      StoreKeepsValid(q, b);
      ghost var o := Meaning(b.tag, SlotMeanings(View(), b.slots));
      blocks, next := blocks[q := b], if q == next then next + 1 else next;
      owner, rank, obj := Adopted(owner, q, b.slots), rank[q := MaxRank(rank, b.slots) + 1], obj[q := o];
    }

    method Put(place: Place, tag: Tag, slots: seq<Slot>) returns (p: Ptr)
      requires Valid() && Holds(slots)
      requires place == Home(tag) || (place == OnStack && Home(tag) == InBox)
      requires Meaning(tag, SlotMeanings(View(), slots)) != Junk
      modifies this
      ensures Valid() && p != NULL && p == old(next) && p !in old(blocks) && next == old(next) + 1
      ensures View() == (old(View()) - Targets(slots))[p := Meaning(tag, SlotMeanings(old(View()), slots))]
      ensures Temps() == old(Temps()) + (if place == OnStack then {p} else {})
      ensures blocks == old(blocks)[p := Block(place, tag, slots)]
      ensures obj == old(obj)[p := Meaning(tag, SlotMeanings(old(View()), slots))]
      ensures rank.Keys == blocks.Keys && forall q :: q in old(rank) ==> q in rank && rank[q] == old(rank)[q]
    {
      hide Forest, Held, Meaning, SlotMeanings, StackBlocks;
      NextIsFresh(blocks, next, owner, rank, obj);
      p := next;
      StoreAt(p, Block(place, tag, slots));
    }

    /**
     Overwrites a held block in place. What its old slots owned is held directly afterwards unless the
     new slots own it; the new slots may also take over other held blocks.
     */
    method Rewrite(p: Ptr, tag: Tag, slots: seq<Slot>)
      requires Valid() && p in View() && p !in Temps()
      requires Home(tag) == HomeOfObject(View()[p])
      requires DistinctTargets(slots) && p !in Targets(slots)
      requires forall i :: 0 <= i < |slots| && slots[i].Own? ==>
                 (slots[i].p in View() && slots[i].p !in Temps()) || slots[i].p in Targets(blocks[p].slots)
      requires Meaning(tag, SlotMeanings(obj, slots)) != Junk
      modifies this
      ensures Valid() && Temps() == old(Temps()) && p in old(blocks)
      ensures var freed := Restrict(old(obj), Targets(old(blocks)[p].slots));
              View() == (old(View()) - {p} + freed - Targets(slots))[p := Meaning(tag, SlotMeanings(old(obj), slots))]
      ensures blocks == old(blocks)[p := Block(Home(tag), tag, slots)]
    {
      hide Forest, Held, Meaning, SlotMeanings, Home, HomeOfObject, Targets, DistinctTargets, Restrict, Orphaned;
      HeldAreLive();
      TargetsOf(slots);
      TargetsOf(blocks[p].slots);
      ghost var view0, obj0: map<Ptr, Object> := View(), obj;
      var b := Remove(p);
      StaysInView(view0, obj0, p, Targets(b.slots));
      SameMeanings(p, obj0, slots);
      PutBack(p, Block(b.place, tag, slots));
    }

    lemma SameMeanings(p: Ptr, obj0: map<Ptr, Object>, slots: seq<Slot>)
      requires Valid() && obj == obj0 - {p}
      requires forall i :: 0 <= i < |slots| && slots[i].Own? ==> slots[i].p in View() && slots[i].p != p
      ensures SlotMeanings(View(), slots) == SlotMeanings(obj0, slots)
    {
      hide Forest, Held, SlotMeanings, Home, HomeOfObject, StackBlocks;
      HeldAreLive();
      FrameMeanings(obj0, View(), slots);
    }

    /** Stores a block at an address that has just become free. */
    method PutBack(q: Ptr, b: Block)
      requires Valid() && CanStore(q, b)
      modifies this
      ensures Valid() && Temps() == old(Temps()) + (if b.place == OnStack then {q} else {})
      ensures View() == (old(View()) - Targets(b.slots))[q := Meaning(b.tag, SlotMeanings(old(View()), b.slots))]
      ensures blocks == old(blocks)[q := b]
    {
      StoreAt(q, b);
    }

    lemma RemoveKeepsValid(p: Ptr)
      requires Valid() && p in View()
      ensures p in blocks && p in obj && p in rank && rank.Keys == blocks.Keys
      ensures Forest(blocks - {p}, next, Orphaned(owner, p), rank - {p}, obj - {p})
      ensures Held(Orphaned(owner, p), obj - {p}) == (View() - {p}) + Restrict(obj, Targets(blocks[p].slots))
      ensures Targets(blocks[p].slots) !! View().Keys && Targets(blocks[p].slots) <= (obj - {p}).Keys
      ensures DistinctTargets(blocks[p].slots) && Targets(blocks[p].slots) !! Temps()
      ensures StackBlocks(blocks - {p}) == Temps() - {p}
      ensures obj[p] == View()[p] == Meaning(blocks[p].tag, SlotMeanings(obj, blocks[p].slots)) && obj[p] != Junk
      ensures blocks[p].place == Home(blocks[p].tag) || (blocks[p].place == OnStack && Home(blocks[p].tag) == InBox)
      ensures forall q :: q in Targets(blocks[p].slots) ==> q in rank && rank[q] < rank[p]
    {
      hide Forest, Meaning, SlotMeanings, Home, Restrict;
      HeldFacts(blocks, next, owner, rank, obj);
      RemoveKeepsForest(blocks, next, owner, rank, obj, p);
      BlockFacts(blocks, next, owner, rank, obj, p);
    }

    method Remove(p: Ptr) returns (b: Block)
      requires Valid() && p in View()
      modifies this
      ensures Valid() && p in old(blocks) && b == old(blocks)[p]
      ensures View() == (old(View()) - {p}) + Restrict(old(obj), Targets(b.slots))
      ensures Temps() == old(Temps()) - {p}
      ensures blocks == old(blocks) - {p}
      ensures obj == old(obj) - {p} && rank == old(rank) - {p} && owner == Orphaned(old(owner), p)
      ensures p in old(obj) && old(obj)[p] == old(View())[p] == Meaning(b.tag, SlotMeanings(old(obj), b.slots))
      ensures old(obj)[p] != Junk
      ensures Targets(b.slots) !! old(View()).Keys && Targets(b.slots) <= obj.Keys && Holds(b.slots)
      ensures b.place == Home(b.tag) || (b.place == OnStack && Home(b.tag) == InBox)
      ensures forall q :: q in Targets(b.slots) ==> q in old(rank) && p in old(rank) && old(rank)[q] < old(rank)[p]
      ensures SlotMeanings(old(obj), b.slots) == SlotMeanings(View(), b.slots)
      ensures next == old(next)
    {
      hide Forest, Held, StackBlocks, Meaning, Home, Orphaned, Targets;
      RemoveKeepsValid(p);
      b := blocks[p];
      ghost var obj0 := obj;
      blocks := blocks - {p};
      owner, rank, obj := Orphaned(owner, p), rank - {p}, obj - {p};
      TargetsOf(b.slots);
      FrameMeanings(obj0, View(), b.slots);
    }

    /* ---------- boxes ---------- */

    /** `Box::into_raw(Box::new(..))`: the new box takes over the blocks its slots point to. */
    method BoxNew(tag: Tag, slots: seq<Slot>) returns (p: Ptr)
      requires Valid() && Holds(slots) && Home(tag) == InBox
      requires Meaning(tag, SlotMeanings(View(), slots)) != Junk
      modifies this
      ensures Valid() && p != NULL && p !in old(View())
      ensures View() == (old(View()) - Targets(slots))[p := Meaning(tag, SlotMeanings(old(View()), slots))]
      ensures Temps() == old(Temps())
      ensures p !in old(blocks) && blocks == old(blocks)[p := Block(InBox, tag, slots)]
      ensures obj == old(obj)[p := Meaning(tag, SlotMeanings(old(View()), slots))]
      ensures rank.Keys == blocks.Keys && forall q :: q in old(rank) ==> q in rank && rank[q] == old(rank)[q]
    {
      hide Forest, Held, StackBlocks, Meaning, SlotMeanings;
      HeldAreLive();
      p := Put(InBox, tag, slots);
    }

    /** A value built on the stack of the call in progress. */
    method StackNew(tag: Tag, slots: seq<Slot>) returns (v: Ptr)
      requires Valid() && Holds(slots) && Home(tag) == InBox
      requires Meaning(tag, SlotMeanings(View(), slots)) != Junk
      modifies this
      ensures Valid() && v != NULL && v !in old(View())
      ensures View() == (old(View()) - Targets(slots))[v := Meaning(tag, SlotMeanings(old(View()), slots))]
      ensures Temps() == old(Temps()) + {v}
    {
      hide Forest, Held, StackBlocks, Meaning, SlotMeanings;
      HeldAreLive();
      v := Put(OnStack, tag, slots);
    }

    /** `Box::from_raw(p).inner`: the box is released and its contents move to the stack. */
    method Unbox(p: Ptr) returns (v: Ptr)
      requires Valid() && p in View() && p !in Temps() && HomeOfObject(View()[p]) == InBox
      modifies this
      ensures Valid() && v != NULL && v !in old(View())
      ensures View() == (old(View()) - {p})[v := old(View())[p]]
      ensures Temps() == old(Temps()) + {v}
    {
      v := Rehome(p, OnStack);
    }

    /** `Box::new(value)` for a value on the stack. */
    method Rebox(v: Ptr) returns (p: Ptr)
      requires Valid() && v in View() && v in Temps()
      modifies this
      ensures Valid() && p != NULL && p !in old(View())
      ensures View() == (old(View()) - {v})[p := old(View())[v]]
      ensures Temps() == old(Temps()) - {v}
    {
      hide Forest, Held, StackBlocks, Home, HomeOfObject;
      HeldAreLive();
      p := Rehome(v, InBox);
    }

    /** Moves a box's contents between the heap and the stack: a new block with the same slots. */
    method Rehome(p: Ptr, place: Place) returns (q: Ptr)
      requires Valid() && p in View() && HomeOfObject(View()[p]) == InBox && place in {InBox, OnStack}
      modifies this
      ensures Valid() && q != NULL && q !in old(View())
      ensures View() == (old(View()) - {p})[q := old(View())[p]]
      ensures Temps() == old(Temps()) - {p} + (if place == OnStack then {q} else {})
    {
      hide Forest, Held, StackBlocks, Meaning, SlotMeanings, Home, HomeOfObject, Restrict, Targets, Orphaned;
      ghost var view0: map<Ptr, Object>, obj0: map<Ptr, Object> := View(), obj;
      HeldAreLive();
      var b := Remove(p);
      HomeAgrees(b.tag, SlotMeanings(obj0, b.slots));
      Unheld(view0, obj0, p, Targets(b.slots));
      StaysInView(view0, obj0, p, Targets(b.slots));
      q := Put(place, b.tag, b.slots);
    }

    /**
     Rust's drop glue: releases a box, or a stack value, and everything it owns, directly or through other
     blocks; every other block is left as it is.
     */
    method DropValue(p: Ptr)
      requires Valid() && p in View() && HomeOfObject(View()[p]) == InBox
      modifies this
      ensures Valid() && View() == old(View()) - {p} && Temps() == old(Temps()) - {p}
      ensures rank.Keys <= old(rank).Keys && forall q :: q in rank ==> rank[q] == old(rank)[q]
      ensures Felled(old(blocks), old(owner), {p}, blocks, owner)
      ensures TreeDropped(old(blocks), old(owner), p, blocks)
      decreases if p in rank then rank[p] else 0, 1, 0
    {
      hide Forest, Held, StackBlocks, Meaning, SlotMeanings, Home, HomeOfObject, Targets, Felled, TreeDropped, OneOwner,
          Orphaned;
      ghost var view0: map<Ptr, Object>, obj0: map<Ptr, Object>, rank0 := View(), obj, rank;
      ghost var blocks0, owner0 := blocks, owner;
      HeldAreLive();
      HeldAreRanked();
      Owners();
      var b := Remove(p);
      KidsAreBoxes(b, obj0);
      TargetsOf(b.slots);
      DropSlots(b.slots, rank0[p]);
      Unheld(view0, obj0, p, Targets(b.slots));
      TreeIsGone(blocks0, owner0, p);
    }

    lemma Owners()
      requires Valid()
      ensures OneOwner(blocks, owner) && blocks.Keys == owner.Keys
    {
    }

    /** What a removed block owned was held from then on, and so has been dropped. */
    lemma KidsAreGone(blocks0: Blocks, owner0: map<Ptr, Owner>, p: Ptr)
      requires Valid() && OneOwner(blocks0, owner0) && p in blocks0 && Targets(blocks0[p].slots) !! View().Keys
      requires Pruned(blocks0 - {p}, Orphaned(owner0, p), blocks, owner)
      ensures Targets(blocks0[p].slots) !! blocks.Keys
    {
      hide Targets, OneOwner, Orphaned;
      forall kid | kid in Targets(blocks0[p].slots) ensures kid !in blocks {
        if kid != p {
          KidBecomesHeld(blocks0, owner0, p, kid);
        }
      }
    }

    lemma TreeIsGone(blocks0: Blocks, owner0: map<Ptr, Owner>, p: Ptr)
      requires Valid() && OneOwner(blocks0, owner0) && p in blocks0 && Targets(blocks0[p].slots) !! View().Keys
      requires Felled(blocks0 - {p}, Orphaned(owner0, p), Targets(blocks0[p].slots), blocks, owner)
      ensures Felled(blocks0, owner0, {p}, blocks, owner) && TreeDropped(blocks0, owner0, p, blocks)
    {
      hide Forest, Held, Targets, Felled, Above, OneOwner, Orphaned;
      Owners();
      FelledFacts(blocks0 - {p}, Orphaned(owner0, p), Targets(blocks0[p].slots), blocks, owner);
      KidsAreGone(blocks0, owner0, p);
      FelledFromRoot(blocks0, owner0, p, blocks, owner);
      FelledFacts(blocks0, owner0, {p}, blocks, owner);
      WholeTreeIsGone(blocks0, owner0, p, blocks, owner);
    }

    method DropSlots(slots: seq<Slot>, ghost bound: nat)
      requires Valid() && Holds(slots) && Targets(slots) !! Temps()
      requires forall i :: 0 <= i < |slots| ==> slots[i].Own? && HomeOfObject(View()[slots[i].p]) == InBox
      requires forall i :: 0 <= i < |slots| ==> slots[i].p in rank && rank[slots[i].p] < bound
      modifies this
      ensures Valid() && View() == old(View()) - Targets(slots) && Temps() == old(Temps())
      ensures rank.Keys <= old(rank).Keys && forall q :: q in rank ==> rank[q] == old(rank)[q]
      ensures Felled(old(blocks), old(owner), Targets(slots), blocks, owner)
      decreases bound, 0, |slots|
    {
      hide Forest, Held, StackBlocks, Meaning, SlotMeanings, Home, HomeOfObject, Targets, Felled, TreeDropped, OneOwner;
      TargetsOf(slots);
      Owners();
      if slots == [] {
        NothingFelled(blocks, owner);
        return;
      }
      ghost var blocks0, owner0 := blocks, owner;
      TargetsOf(slots[1..]);
      DropValue(slots[0].p);
      HeldAreRanked();
      ghost var blocks1, owner1 := blocks, owner;
      DropSlots(slots[1..], bound);
      FelledTwice(blocks0, owner0, slots[0].p, blocks1, owner1, Targets(slots[1..]), blocks, owner);
    }

    /* ---------- C strings ---------- */

    /** `CString::new(text)` followed by `into_raw`, for text without NUL bytes. */
    method CStringNew(text: CText) returns (p: Ptr)
      requires Valid()
      modifies this
      ensures Valid() && p != NULL && p !in old(View()) && p !in old(blocks)
      ensures View() == old(View())[p := LeafObj(CStr(text))] && Temps() == old(Temps())
      ensures blocks == old(blocks)[p := Block(InCString, Plain(CStr(text)), [])]
    {
      p := LeafNew(CStr(text));
    }

    /** Allocates a block that owns nothing, wherever its kind lives. */
    method LeafNew(leaf: Leaf) returns (p: Ptr)
      requires Valid()
      modifies this
      ensures Valid() && p != NULL && p !in old(View()) && p !in old(blocks)
      ensures View() == old(View())[p := LeafObj(leaf)] && Temps() == old(Temps())
      ensures blocks == old(blocks)[p := Block(HomeOfLeaf(leaf), Plain(leaf), [])]
    {
      hide Forest, Held, StackBlocks, HomeOfLeaf, Targets, SlotMeanings;
      HeldAreLive();
      TargetsOf([]);
      p := Put(HomeOfLeaf(leaf), Plain(leaf), []);
      assert HomeOfLeaf(leaf) != OnStack by { LeavesHaveHomes(leaf); }
    }

    /** `CString::from_raw(p)`, dropped at once. */
    method CStringDrop(p: Ptr)
      requires Valid() && p in View() && View()[p].LeafObj? && View()[p].leaf.CStr?
      modifies this
      ensures Valid() && View() == old(View()) - {p} && Temps() == old(Temps()) && blocks == old(blocks) - {p}
    {
      Release(p);
    }

    /** Removes a block whose slots own nothing (any more). */
    method Release(p: Ptr)
      requires Valid() && p in View() && HomeOfObject(View()[p]) != InBox && OwnsNothing(View()[p])
      modifies this
      ensures Valid() && View() == old(View()) - {p} && Temps() == old(Temps()) && blocks == old(blocks) - {p}
    {
      hide Forest, Held, StackBlocks, Home, HomeOfObject, Targets, SlotMeanings, Meaning;
      HeldAreLive();
      ghost var obj0 := obj;
      var b := Remove(p);
      NothingOwned(b, obj0);
    }

    /* ---------- malloc ---------- */

    /** `libc::malloc`: a block of uninitialised cells, or NULL. Which of them is up to the allocator. */
    method Malloc(tag: Tag, grant: bool) returns (p: Ptr)
      requires Valid() && Home(tag) == InMalloc && Meaning(tag, []) != Junk
      modifies this
      ensures Valid() && Temps() == old(Temps()) && (p != NULL <==> grant)
      ensures p == NULL ==> View() == old(View()) && blocks == old(blocks)
      ensures p != NULL ==>
                && p !in old(View()) && p !in old(blocks)
                && View() == old(View())[p := Meaning(tag, [])]
                && blocks == old(blocks)[p := Block(InMalloc, tag, [])]
    {
      hide Forest, Held, StackBlocks, Home, Targets, SlotMeanings, Meaning;
      HeldAreLive();
      TargetsOf([]);
      if !grant {
        return NULL;
      }
      assert SlotMeanings(View(), []) == [];
      p := Put(InMalloc, tag, []);
    }

    /** `libc::free`. Freeing an array that still owns its elements would leak them, so that is refused. */
    method Free(p: Ptr)
      requires Valid() && p in View() && HomeOfObject(View()[p]) == InMalloc && OwnsNothing(View()[p])
      modifies this
      ensures Valid() && View() == old(View()) - {p} && Temps() == old(Temps()) && blocks == old(blocks) - {p}
    {
      Release(p);
    }

    /* ---------- cells of arrays and fields of live objects ---------- */

    lemma BlockOf(p: Ptr)
      requires Valid() && p in obj
      ensures p in blocks && obj[p] == Meaning(blocks[p].tag, SlotMeanings(obj, blocks[p].slots)) && obj[p] != Junk
      ensures forall i :: 0 <= i < |blocks[p].slots| && blocks[p].slots[i].Own? ==> blocks[p].slots[i].p in obj
      ensures DistinctTargets(blocks[p].slots) && p !in Targets(blocks[p].slots)
    {
      hide Meaning, SlotMeanings, Placed;
      NextIsFresh(blocks, next, owner, rank, obj);
      BlockMeaning(blocks, obj, p);
    }

    /** Overwrites the contents of a held block that owns nothing. */
    method StoreLeaf(p: Ptr, leaf: Leaf)
      requires Valid() && p in View() && p !in Temps() && View()[p].LeafObj?
      requires HomeOfLeaf(leaf) == HomeOfLeaf(View()[p].leaf)
      modifies this
      ensures Valid() && View() == old(View())[p := LeafObj(leaf)] && Temps() == old(Temps())
      ensures blocks == old(blocks)[p := Block(HomeOfLeaf(leaf), Plain(leaf), [])]
    {
      hide Forest, Held, StackBlocks, HomeOfLeaf, Targets, SlotMeanings;
      HeldAreLive();
      BlockOf(p);
      TargetsOf([]);
      assert blocks[p].slots == [];
      Rewrite(p, Plain(leaf), []);
    }

    /** `*array.add(i) = s` for the next unwritten cell of a pointer array. */
    method Push(a: Ptr, s: Ptr)
      requires Valid() && a in View() && a !in Temps() && View()[a].ArrayObj?
      requires |View()[a].slots| < View()[a].capacity
      requires s in View() && s !in Temps() && s != a
      modifies this
      ensures Valid() && Temps() == old(Temps())
      ensures var o := old(View())[a];
              View() == (old(View()) - {s})[a := ArrayObj(o.capacity, o.slots + [Is(old(View())[s])])]
      ensures a in old(blocks) && blocks == old(blocks)[a := old(blocks)[a].(slots := old(blocks)[a].slots + [Own(s)])]
    {
      hide Forest, Held, StackBlocks, Home, Targets, Meaning, Restrict;
      HeldAreLive();
      BlockOf(a);
      RemoveKeepsValid(a);
      var tag, slots := blocks[a].tag, blocks[a].slots;
      SlotAdded(tag, SlotMeanings(obj, slots), Is(obj[s]));
      TargetsOf(slots);
      SlotsWithAnother(obj, slots, s);
      TakenOver(View(), obj, a, ArrayObj(View()[a].capacity, View()[a].slots + [Is(View()[s])]), Targets(slots), {s});
      Rewrite(a, tag, slots + [Own(s)]);
    }

    /** Writes the next { keys, values, count } struct of a metadata array; both pointers may be NULL. */
    method PushEntry(a: Ptr, keys: Ptr, values: Ptr, count: nat)
      requires Valid() && a in View() && a !in Temps() && View()[a].MetadataObj?
      requires |View()[a].counts| < View()[a].capacity
      requires keys == values == NULL || (keys != values && {keys, values} <= View().Keys - Temps() - {a})
      modifies this
      ensures Valid() && Temps() == old(Temps())
      ensures var o := old(View())[a];
              View() == (old(View()) - {keys, values})[a := MetadataObj(o.capacity, o.counts + [count],
                o.slots + [Cell(old(View()), keys), Cell(old(View()), values)])]
      ensures a in old(blocks) && a in blocks && blocks == old(blocks)[a := blocks[a]]
      ensures blocks[a].slots == old(blocks)[a].slots + (if keys == NULL then [Null, Null]
                                                         else [Own(keys), Own(values)])
    {
      hide Forest, Held, StackBlocks, Targets, HomeOfObject, Home, Meaning, SlotMeanings, Restrict;
      HeldAreLive();
      BlockOf(a);
      RemoveKeepsValid(a);
      var tag, slots := blocks[a].tag, blocks[a].slots;
      TargetsOf(slots);
      var k, v := if keys == NULL then Null else Own(keys), if keys == NULL then Null else Own(values);
      SlotsWithTwoMore(obj, slots, k, v);
      MetadataGrows(obj, tag, slots, k, v, count);
      ghost var o, taken := View()[a], if keys == NULL then {} else {keys, values};
      assert View() - taken == View() - {keys, values};
      TakenOver(View(), obj, a, MetadataObj(o.capacity, o.counts + [count],
                o.slots + [Cell(View(), keys), Cell(View(), values)]), Targets(slots), taken);
      Rewrite(a, tag.(counts := tag.counts + [count]), slots + [k, v]);
    }

    /** Moves the pointer out of a cell: the cell no longer owns it and must not be read again. */
    method TakeCell(a: Ptr, i: nat) returns (p: Ptr)
      requires Valid() && a in View() && a !in Temps() && (View()[a].ArrayObj? || View()[a].MetadataObj?)
      requires i < |View()[a].slots| && View()[a].slots[i].Is?
      modifies this
      ensures Valid() && Temps() == old(Temps()) && p != NULL && p !in old(View()) && p in old(obj)
      ensures var o := old(View())[a];
              View() == old(View())[a := o.(slots := o.slots[i := Gone])][p := o.slots[i].obj]
      ensures a in old(blocks) && i < |old(blocks)[a].slots| && old(blocks)[a].slots[i] == Own(p)
      ensures blocks == old(blocks)[a := old(blocks)[a].(slots := old(blocks)[a].slots[i := Moved])]
    {
      hide Forest, Held, StackBlocks, Home, Targets, Meaning, Restrict;
      HeldAreLive();
      BlockOf(a);
      RemoveKeepsValid(a);
      var tag, slots := blocks[a].tag, blocks[a].slots;
      SlotGone(tag, SlotMeanings(obj, slots), i);
      assert SlotMeanings(obj, slots)[i] == SlotMeaning(obj, slots[i]);
      TargetsOf(slots);
      p := slots[i].p;
      NextIsFresh(blocks, next, owner, rank, obj);
      SlotsWithout(obj, slots, i);
      GivenUp(View(), obj, a, View()[a].(slots := View()[a].slots[i := Gone]), Targets(slots[i := Moved]), p);
      Rewrite(a, tag, slots[i := Moved]);
    }

    /** `*array.add(i)`: reads a written cell without moving it; the result may be NULL. */
    method ReadCell(a: Ptr, i: nat) returns (p: Ptr)
      requires Valid() && a in obj && (obj[a].ArrayObj? || obj[a].MetadataObj?)
      requires i < |obj[a].slots| && !obj[a].slots[i].Gone?
      ensures obj[a].slots[i].NullObj? ==> p == NULL
      ensures obj[a].slots[i].Is? ==> p != NULL && p in obj && obj[p] == obj[a].slots[i].obj
    {
      hide Forest, Held, StackBlocks, Home, Targets;
      BlockOf(a);
      NextIsFresh(blocks, next, owner, rank, obj);
      var slots := blocks[a].slots;
      assert SlotMeanings(obj, slots)[i] == SlotMeaning(obj, slots[i]);
      p := if slots[i].Own? then slots[i].p else NULL;
    }

    /** The number of entries recorded in struct `i` of a metadata array. */
    method ReadCount(a: Ptr, i: nat) returns (n: nat)
      requires Valid() && a in obj && obj[a].MetadataObj? && i < |obj[a].counts|
      ensures n == obj[a].counts[i]
    {
      hide Forest, Held, StackBlocks, Home, Targets, SlotMeanings;
      BlockOf(a);
      n := blocks[a].tag.counts[i];
    }

    /** Reads a live block that owns nothing. */
    method ReadLeaf(p: Ptr) returns (leaf: Leaf)
      requires Valid() && p in obj && obj[p].LeafObj?
      ensures leaf == obj[p].leaf
    {
      hide Forest, Held, StackBlocks, Home, Targets, SlotMeanings;
      BlockOf(p);
      leaf := blocks[p].tag.leaf;
    }

    /* ---------- query objects ---------- */

    /** Overwrites the plain fields of a live query object. */
    method SetFields(q: Ptr, fields: QueryFields)
      requires Valid() && q in View() && q !in Temps() && View()[q].QueryObj?
      modifies this
      ensures Valid() && Temps() == old(Temps())
      ensures View() == old(View())[q := QueryObj(fields, old(View())[q].dfFilter)]
    {
      hide Forest, Held, StackBlocks, Targets, Meaning, SlotMeanings, Restrict, Home, HomeOfObject;
      HeldAreLive();
      BlockOf(q);
      RemoveKeepsValid(q);
      var tag, slots := blocks[q].tag, blocks[q].slots;
      FieldsReplaced(tag, SlotMeanings(obj, slots), fields);
      TargetsOf(slots);
      Unheld(View(), obj, q, Targets(slots));
      Rewrite(q, Query(fields), slots);
    }

    method ReadFields(q: Ptr) returns (fields: QueryFields, hasFilter: bool)
      requires Valid() && q in View() && View()[q].QueryObj?
      ensures fields == View()[q].fields && hasFilter == View()[q].dfFilter.Some?
    {
      hide Forest, Held, StackBlocks, Targets;
      HeldAreLive();
      BlockOf(q);
      fields, hasFilter := blocks[q].tag.fields, blocks[q].slots != [];
    }

    /** Moves the DataFusion filter out of a query object. */
    method TakeFilter(q: Ptr) returns (e: Ptr)
      requires Valid() && q in View() && q !in Temps() && View()[q].QueryObj? && View()[q].dfFilter.Some?
      modifies this
      ensures Valid() && Temps() == old(Temps()) && e != NULL && e !in old(View())
      ensures var o := old(View())[q];
              View() == old(View())[q := QueryObj(o.fields, None)][e := ExprObj(o.dfFilter.value)]
    {
      hide Forest, Held, StackBlocks, Home, HomeOfObject, Targets, Meaning, Restrict;
      HeldAreLive();
      BlockOf(q);
      RemoveKeepsValid(q);
      NextIsFresh(blocks, next, owner, rank, obj);
      var tag, slots := blocks[q].tag, blocks[q].slots;
      FilterGone(tag, SlotMeanings(obj, slots));
      TargetsOf(slots);
      TargetsOf([]);
      assert SlotMeanings(obj, slots)[0] == SlotMeaning(obj, slots[0]) && SlotMeanings(obj, []) == [];
      e := slots[0].p;
      assert slots[1..] == [] && Targets(slots) == {} + {e};
      GivenUp(View(), obj, q, QueryObj(View()[q].fields, None), {}, e);
      Rewrite(q, tag, []);
    }

    /** Stores a boxed expression as the filter of a query object that has none. */
    method PutFilter(q: Ptr, e: Ptr)
      requires Valid() && q in View() && q !in Temps() && View()[q].QueryObj? && View()[q].dfFilter.None?
      requires e in View() && e !in Temps() && View()[e].ExprObj? && e != q
      modifies this
      ensures Valid() && Temps() == old(Temps())
      ensures View() == (old(View()) - {e})[q := QueryObj(old(View())[q].fields, Some(old(View())[e].expr))]
    {
      hide Forest, Held, StackBlocks, Targets, SlotMeanings;
      HeldAreLive();
      BlockOf(q);
      RemoveKeepsValid(q);
      var tag := blocks[q].tag;
      NoSlotsWithoutFilter(obj, blocks[q]);
      TargetsOf([]);
      SlotsWithAnother(obj, [], e);
      assert [] + [Own(e)] == [Own(e)];
      Rewrite(q, tag, [Own(e)]);
    }

    lemma NoSlotsWithoutFilter(obj: map<Ptr, Object>, b: Block)
      requires Meaning(b.tag, SlotMeanings(obj, b.slots)).QueryObj?
                && Meaning(b.tag, SlotMeanings(obj, b.slots)).dfFilter.None?
      ensures b.tag.Query? && b.slots == [] && SlotMeanings(obj, []) == []
    {
    }

    /* ---------- expressions ---------- */

    /**
     `Expr::clone`: copies a node and, recursively, everything below it. The original may be held or
     part of another object; it is only read.
     */
    method CloneExpr(p: Ptr) returns (q: Ptr)
      requires Valid() && p in obj && obj[p].ExprObj?
      modifies this
      ensures Valid() && Extends(old(blocks), old(obj), old(rank)) && Temps() == old(Temps())
      ensures q != NULL && q !in old(View()) && q !in old(blocks)
      ensures View() == old(View())[q := old(obj)[p]]
      decreases if p in rank then rank[p] else 0, 1, 0
    {
      hide Forest, Held, StackBlocks, Targets, SlotMeanings, Meaning;
      ghost var blocks0, obj0, rank0, view0 := blocks, obj, rank, View();
      HeldAreLive();
      BlockOf(p);
      KidsAreLower(p);
      var b := blocks[p];
      NodesOwnNodes(obj, b);
      var copies := CloneSlots(b.slots, rank[p]);
      TargetsOf(copies);
      CopiesMeanTheSame(obj0, b.slots, View(), copies);
      ghost var blocks1, obj1, rank1 := blocks, obj, rank;
      NextIsFresh(blocks, next, owner, rank, obj);
      q := BoxNew(b.tag, copies);
      StillGrown(blocks0, blocks1, blocks);
      StillGrown(obj0, obj1, obj);
      StillGrown(rank0, rank1, rank);
      HeldAreLive();
      assert View() == view0[q := obj0[p]];
    }

    method CloneSlots(slots: seq<Slot>, ghost bound: nat) returns (copies: seq<Slot>)
      requires Valid() && rank.Keys == blocks.Keys == obj.Keys
      requires AreNodes(slots, obj) && RankedBelow(slots, rank, bound)
      modifies this
      ensures Valid() && Extends(old(blocks), old(obj), old(rank)) && Temps() == old(Temps())
      ensures Holds(copies) && Targets(copies) !! old(blocks).Keys
      ensures Copied(slots, old(obj), copies, View())
      ensures View() - Targets(copies) == old(View()) && Targets(copies) <= View().Keys
      decreases bound, 0, 2 * |slots| + 1
    {
      hide Forest, Held, StackBlocks, Targets, SlotMeanings, Meaning, Grown, Copied, Home, HomeOfObject;
      if slots == [] {
        TargetsOf([]);
        NothingCopied(obj, View());
        AllGrown();
        return [];
      }
      copies := CloneFirst(slots, bound);
    }

    method CloneFirst(slots: seq<Slot>, ghost bound: nat) returns (copies: seq<Slot>)
      requires Valid() && rank.Keys == blocks.Keys == obj.Keys && slots != []
      requires AreNodes(slots, obj) && RankedBelow(slots, rank, bound)
      modifies this
      ensures Valid() && Extends(old(blocks), old(obj), old(rank)) && Temps() == old(Temps())
      ensures Holds(copies) && Targets(copies) !! old(blocks).Keys
      ensures Copied(slots, old(obj), copies, View())
      ensures View() - Targets(copies) == old(View()) && Targets(copies) <= View().Keys
      decreases bound, 0, 2 * |slots|
    {
      hide Forest, Held, StackBlocks, Targets, SlotMeanings, Meaning, Grown, Copied, Home, HomeOfObject, Placed,
          Extends;
      HeldAreLive();
      ghost var view0, blocks0, obj0, rank0 := View(), blocks, obj, rank;
      var head := CloneExpr(slots[0].p);
      ghost var view1 := View();
      AllKept(blocks0, obj0, rank0);
      HeldAreLive();
      NextIsFresh(blocks, next, owner, rank, obj);
      StillNodes(slots[1..], obj0, obj, rank0, rank, bound);
      GrownKeys(blocks0, blocks);
      ghost var blocks1, obj1, rank1 := blocks, obj, rank;
      var rest := CloneSlots(slots[1..], bound);
      copies := [Own(head)] + rest;
      OneMoreCopy(head, rest, view0, view1, View(), blocks0.Keys);
      HoldsFirst(head, rest);
      CopiedOneMore(slots, obj0, obj1, head, rest, View());
      GrownAgain(blocks0, obj0, rank0, blocks1, obj1, rank1);
    }

    lemma AllKept(blocks0: Blocks, obj0: map<Ptr, Object>, rank0: map<Ptr, nat>)
      requires Extends(blocks0, obj0, rank0)
      ensures Grown(blocks0, blocks) && Grown(obj0, obj) && Grown(rank0, rank)
    {
    }

    lemma HoldsFirst(head: Ptr, rest: seq<Slot>)
      requires Holds(rest) && head in View() && head !in Temps() && DistinctTargets([Own(head)] + rest)
      ensures Holds([Own(head)] + rest)
    {
      hide Held, StackBlocks, DistinctTargets;
      var copies := [Own(head)] + rest;
      assert forall i :: 0 < i < |copies| ==> copies[i] == rest[i - 1];
    }

    lemma GrownAgain(blocks0: Blocks, obj0: map<Ptr, Object>, rank0: map<Ptr, nat>, blocks1: Blocks,
                     obj1: map<Ptr, Object>, rank1: map<Ptr, nat>)
      requires Grown(blocks0, blocks1) && Grown(obj0, obj1) && Grown(rank0, rank1) && Extends(blocks1, obj1, rank1)
      ensures Extends(blocks0, obj0, rank0)
    {
      hide Grown;
      StillGrown(blocks0, blocks1, blocks);
      StillGrown(obj0, obj1, obj);
      StillGrown(rank0, rank1, rank);
    }

    lemma AllGrown()
      ensures Extends(blocks, obj, rank)
    {
    }

    /** Walks a live expression tree, as the query planner does. */
    method ReadExpr(p: Ptr) returns (e: Expr)
      requires Valid() && p in obj && obj[p].ExprObj?
      ensures e == obj[p].expr
      decreases if p in rank then rank[p] else 0, 1, 0
    {
      hide Forest, Held, StackBlocks, Targets, SlotMeanings;
      BlockOf(p);
      KidsAreLower(p);
      var b := blocks[p];
      NodesOwnNodes(obj, b);
      var es := ReadExprs(b.slots, rank[p]);
      assert es == ExprsOf(SlotMeanings(obj, b.slots));
      e := Assemble(b.tag.shape, es).value;
    }

    method ReadExprs(slots: seq<Slot>, ghost bound: nat) returns (es: seq<Expr>)
      requires Valid() && AreNodes(slots, obj) && RankedBelow(slots, rank, bound)
      ensures |es| == |slots| && forall i :: 0 <= i < |es| ==> es[i] == obj[slots[i].p].expr
      decreases bound, 0, |slots|
    {
      hide Forest, Held, StackBlocks, Targets, SlotMeanings;
      if slots == [] {
        return [];
      }
      var head := ReadExpr(slots[0].p);
      var rest := ReadExprs(slots[1..], bound);
      es := [head] + rest;
    }

    /** Nothing that existed before has changed. */
    ghost predicate Extends(blocks0: Blocks, obj0: map<Ptr, Object>, rank0: map<Ptr, nat>)
      reads this
    {
      Grown(blocks0, blocks) && Grown(obj0, obj) && Grown(rank0, rank)
    }

    lemma KidsAreLower(p: Ptr)
      requires Valid() && p in obj
      ensures rank.Keys == blocks.Keys == obj.Keys
      ensures forall i :: 0 <= i < |blocks[p].slots| && blocks[p].slots[i].Own? ==>
                blocks[p].slots[i].p in rank && rank[blocks[p].slots[i].p] < rank[p]
    {
      hide Meaning, SlotMeanings, Placed, OneOwner;
      NextIsFresh(blocks, next, owner, rank, obj);
    }

    /** `ptr::read` of a live Arrow array struct: its length and the address of its buffers. */
    method ReadArrow(p: Ptr) returns (length: i64, data: Ptr)
      requires Valid() && p in obj && obj[p].ArrowObj?
      ensures length == obj[p].length
      ensures data in obj && obj[data] == LeafObj(Buffers(obj[p].batch))
    {
      hide Forest, Held, StackBlocks, Home, Targets;
      BlockOf(p);
      var slots := blocks[p].slots;
      assert SlotMeanings(obj, slots)[0] == SlotMeaning(obj, slots[0]);
      length, data := blocks[p].tag.length, slots[0].p;
    }

    /** The address of the buffers a live reader owns. */
    method ReadReader(p: Ptr) returns (data: Ptr)
      requires Valid() && p in obj && obj[p].ReaderObj?
      ensures data in obj && obj[data] == LeafObj(Buffers(obj[p].batch))
    {
      hide Forest, Held, StackBlocks, Home, Targets;
      BlockOf(p);
      var slots := blocks[p].slots;
      assert SlotMeanings(obj, slots)[0] == SlotMeaning(obj, slots[0]);
      data := slots[0].p;
    }

    lemma HeldAreRanked()
      requires Valid()
      ensures forall p :: p in View() ==> p in rank
    {
      hide Forest, StackBlocks, Home, HomeOfObject;
      HeldFacts(blocks, next, owner, rank, obj);
      NextIsFresh(blocks, next, owner, rank, obj);
    }

    lemma HeldAreLive()
      requires Valid()
      ensures View().Keys <= blocks.Keys && Temps() <= View().Keys
      ensures forall p :: p in View() ==> p in obj && View()[p] == obj[p] && obj[p] != Junk && p < next
      ensures forall p :: p in View() ==> HomeOfObject(View()[p]) == Home(blocks[p].tag)
      ensures forall p :: p in Temps() ==> HomeOfObject(View()[p]) == InBox
      ensures NULL !in View()
    {
      hide Forest, Held, StackBlocks, HomeOfObject, Home;
      HeldFacts(blocks, next, owner, rank, obj);
    }
  }
}
