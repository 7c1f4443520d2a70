/**
 The theory of a heap in which every block has exactly one owner.

 The bookkeeping maps are ghost: `owner` says who holds a block (the caller or the call in progress,
 or one slot of another block), `rank` orders blocks so that ownership cannot be circular, and `obj`
 is what each block means. Everything here is about plain values; the class in Heap.dfy performs the
 same changes on its fields.
 */
module Memory {
  import opened Objects

  datatype Block = Block(place: Place, tag: Tag, slots: seq<Slot>)

  datatype Owner = Hand | Field(of: Ptr, index: nat)

  type Blocks = map<Ptr, Block>

  ghost function SlotMeaning(obj: map<Ptr, Object>, s: Slot): SlotObj {
    match s
    case Null => NullObj
    case Moved => Gone
    case Own(p) => if p in obj then Is(obj[p]) else NullObj
  }

  ghost function SlotMeanings(obj: map<Ptr, Object>, slots: seq<Slot>): (r: seq<SlotObj>)
    ensures |r| == |slots|
    ensures forall i :: 0 <= i < |slots| ==> r[i] == SlotMeaning(obj, slots[i])
  {
    seq(|slots|, i requires 0 <= i < |slots| => SlotMeaning(obj, slots[i]))
  }

  /** The blocks a list of slots owns. */
  ghost function Targets(slots: seq<Slot>): set<Ptr> {
    set i | 0 <= i < |slots| && slots[i].Own? :: slots[i].p
  }

  ghost predicate DistinctTargets(slots: seq<Slot>) {
    forall i, j :: 0 <= i < j < |slots| && slots[i].Own? && slots[j].Own? ==> slots[i].p != slots[j].p
  }

  /** Every block has exactly one owner, and every owning slot points to the block it owns. */
  ghost predicate OneOwner(blocks: Blocks, owner: map<Ptr, Owner>) {
    && owner.Keys == blocks.Keys
    && (forall p :: p in blocks && owner[p].Field? ==>
          && owner[p].of in blocks
          && owner[p].index < |blocks[owner[p].of].slots|
          && blocks[owner[p].of].slots[owner[p].index] == Own(p))
    && (forall p, i :: p in blocks && 0 <= i < |blocks[p].slots| && blocks[p].slots[i].Own? ==>
          && blocks[p].slots[i].p in blocks
          && owner[blocks[p].slots[i].p] == Field(p, i))
  }

  ghost predicate Ranked(blocks: Blocks, rank: map<Ptr, nat>) {
    && rank.Keys == blocks.Keys
    && (forall p, i :: p in blocks && 0 <= i < |blocks[p].slots| && blocks[p].slots[i].Own? ==>
          blocks[p].slots[i].p in blocks && rank[blocks[p].slots[i].p] < rank[p])
  }

  ghost predicate Meant(blocks: Blocks, obj: map<Ptr, Object>) {
    && obj.Keys == blocks.Keys
    && (forall p :: p in blocks ==>
          obj[p] == Meaning(blocks[p].tag, SlotMeanings(obj, blocks[p].slots)) && obj[p] != Junk)
  }

  /** Blocks live where their kind is allocated; only values a call holds are on the stack. */
  ghost predicate Placed(blocks: Blocks, owner: map<Ptr, Owner>) {
    && owner.Keys == blocks.Keys
    && (forall p :: p in blocks ==>
          blocks[p].place == Home(blocks[p].tag)
          || (blocks[p].place == OnStack && Home(blocks[p].tag) == InBox && owner[p].Hand?))
  }

  ghost predicate Fresh(blocks: Blocks, next: Ptr) {
    NULL < next && NULL !in blocks && forall p :: p in blocks ==> p < next
  }

  ghost predicate Forest(blocks: Blocks, next: Ptr, owner: map<Ptr, Owner>, rank: map<Ptr, nat>,
                         obj: map<Ptr, Object>) {
    && Fresh(blocks, next)
    && OneOwner(blocks, owner)
    && Ranked(blocks, rank)
    && Meant(blocks, obj)
    && Placed(blocks, owner)
  }

  /** What is held directly: by the caller, or by the call in progress. */
  ghost function Held(owner: map<Ptr, Owner>, obj: map<Ptr, Object>): map<Ptr, Object> {
    map p | p in owner && owner[p].Hand? && p in obj :: obj[p]
  }

  ghost function StackBlocks(blocks: Blocks): set<Ptr> {
    set p | p in blocks && blocks[p].place == OnStack
  }

  lemma NextIsFresh(blocks: Blocks, next: Ptr, owner: map<Ptr, Owner>, rank: map<Ptr, nat>, obj: map<Ptr, Object>)
    requires Forest(blocks, next, owner, rank, obj)
    ensures next != NULL && next !in blocks && NULL !in blocks
    ensures rank.Keys == blocks.Keys == obj.Keys == owner.Keys
  {
  }

  lemma HeldHomes(blocks: Blocks, owner: map<Ptr, Owner>, obj: map<Ptr, Object>)
    requires Meant(blocks, obj)
    ensures forall p :: p in obj ==> HomeOfObject(obj[p]) == Home(blocks[p].tag)
  {
    hide Meaning, SlotMeanings, Home, HomeOfObject;
    forall p | p in obj ensures HomeOfObject(obj[p]) == Home(blocks[p].tag) {
      HomeAgrees(blocks[p].tag, SlotMeanings(obj, blocks[p].slots));
    }
  }

  lemma StackIsHeld(blocks: Blocks, owner: map<Ptr, Owner>, obj: map<Ptr, Object>)
    requires Placed(blocks, owner) && obj.Keys == blocks.Keys
    ensures StackBlocks(blocks) <= Held(owner, obj).Keys
    ensures forall p :: p in StackBlocks(blocks) ==> Home(blocks[p].tag) == InBox
  {
    forall p | p in StackBlocks(blocks) ensures p in Held(owner, obj) && Home(blocks[p].tag) == InBox {
      assert Home(blocks[p].tag) != OnStack;
    }
  }

  lemma HeldFacts(blocks: Blocks, next: Ptr, owner: map<Ptr, Owner>, rank: map<Ptr, nat>, obj: map<Ptr, Object>)
    requires Forest(blocks, next, owner, rank, obj)
    ensures Held(owner, obj).Keys <= blocks.Keys && StackBlocks(blocks) <= Held(owner, obj).Keys
    ensures NULL !in Held(owner, obj)
    ensures forall p :: p in Held(owner, obj) ==>
              p in obj && Held(owner, obj)[p] == obj[p] && obj[p] != Junk && p < next
    ensures forall p :: p in Held(owner, obj) ==> HomeOfObject(obj[p]) == Home(blocks[p].tag)
    ensures forall p :: p in StackBlocks(blocks) ==> HomeOfObject(obj[p]) == InBox
  {
    hide Meaning, SlotMeanings, Home, HomeOfObject, OneOwner, Ranked;
    HeldHomes(blocks, owner, obj);
    StackIsHeld(blocks, owner, obj);
  }

  /* ---------- storing a block ---------- */

  ghost function MaxRank(rank: map<Ptr, nat>, slots: seq<Slot>): nat {
    if slots == [] then 0
    else
      var rest := MaxRank(rank, slots[1..]);
      if slots[0].Own? && slots[0].p in rank && rest < rank[slots[0].p] then rank[slots[0].p] else rest
  }

  lemma {:induction false} MaxRankBounds(rank: map<Ptr, nat>, slots: seq<Slot>, i: nat)
    requires i < |slots| && slots[i].Own? && slots[i].p in rank
    ensures rank[slots[i].p] <= MaxRank(rank, slots)
  {
    if i > 0 {
      MaxRankBounds(rank, slots[1..], i - 1);
    }
  }

  ghost predicate CanOwn(blocks: Blocks, owner: map<Ptr, Owner>, slots: seq<Slot>) {
    && DistinctTargets(slots)
    && (forall i :: 0 <= i < |slots| && slots[i].Own? ==>
          slots[i].p in blocks && slots[i].p in owner && owner[slots[i].p].Hand? && blocks[slots[i].p].place != OnStack)
  }

  ghost function IndexOf(slots: seq<Slot>, p: Ptr): nat
    requires p in Targets(slots)
    ensures IndexOf(slots, p) < |slots| && slots[IndexOf(slots, p)] == Own(p)
  {
    var i :| 0 <= i < |slots| && slots[i] == Own(p);
    i
  }

  /** The owners once block `q` holds `slots`: their targets belong to its fields. */
  ghost function Adopted(owner: map<Ptr, Owner>, q: Ptr, slots: seq<Slot>): map<Ptr, Owner> {
    map p | p in owner.Keys + {q} ::
      if p == q then Hand else if p in Targets(slots) then Field(q, IndexOf(slots, p)) else owner[p]
  }

  lemma FrameMeanings(obj: map<Ptr, Object>, obj': map<Ptr, Object>, slots: seq<Slot>)
    requires forall i :: 0 <= i < |slots| && slots[i].Own? ==>
               slots[i].p in obj && slots[i].p in obj' && obj[slots[i].p] == obj'[slots[i].p]
    ensures SlotMeanings(obj, slots) == SlotMeanings(obj', slots)
  {
    forall i | 0 <= i < |slots| ensures SlotMeaning(obj, slots[i]) == SlotMeaning(obj', slots[i]) {
    }
  }

  lemma StoreKeepsOwners(blocks: Blocks, owner: map<Ptr, Owner>, q: Ptr, b: Block)
    requires OneOwner(blocks, owner) && q !in blocks && CanOwn(blocks, owner, b.slots)
    ensures OneOwner(blocks[q := b], Adopted(owner, q, b.slots))
  {
    var blocks', owner' := blocks[q := b], Adopted(owner, q, b.slots);
    assert owner'.Keys == blocks'.Keys;
    forall p, i | p in blocks' && 0 <= i < |blocks'[p].slots| && blocks'[p].slots[i].Own?
      ensures blocks'[p].slots[i].p in blocks' && owner'[blocks'[p].slots[i].p] == Field(p, i)
    {
      var k := blocks'[p].slots[i].p;
      if p == q {
        assert k in Targets(b.slots);
        var j := IndexOf(b.slots, k);
        assert j == i;
      } else {
        assert blocks[p].slots[i].p in blocks && owner[k] == Field(p, i);
        assert k !in Targets(b.slots);
      }
    }
    forall p | p in blocks' && owner'[p].Field?
      ensures owner'[p].of in blocks' && owner'[p].index < |blocks'[owner'[p].of].slots|
      ensures blocks'[owner'[p].of].slots[owner'[p].index] == Own(p)
    {
      if p !in Targets(b.slots) {
        assert owner'[p] == owner[p] && p in blocks;
      }
    }
  }

  lemma StoreKeepsRanks(blocks: Blocks, owner: map<Ptr, Owner>, rank: map<Ptr, nat>, q: Ptr, b: Block)
    requires Ranked(blocks, rank) && q !in blocks && CanOwn(blocks, owner, b.slots)
    ensures Ranked(blocks[q := b], rank[q := MaxRank(rank, b.slots) + 1])
  {
    forall i | 0 <= i < |b.slots| && b.slots[i].Own?
      ensures rank[b.slots[i].p] <= MaxRank(rank, b.slots)
    {
      MaxRankBounds(rank, b.slots, i);
    }
  }

  lemma StoreKeepsMeanings(blocks: Blocks, owner: map<Ptr, Owner>, obj: map<Ptr, Object>, q: Ptr, b: Block)
    requires OneOwner(blocks, owner) && Meant(blocks, obj) && q !in blocks && CanOwn(blocks, owner, b.slots)
    requires Meaning(b.tag, SlotMeanings(obj, b.slots)) != Junk
    ensures Meant(blocks[q := b], obj[q := Meaning(b.tag, SlotMeanings(obj, b.slots))])
  {
    var o := Meaning(b.tag, SlotMeanings(obj, b.slots));
    var blocks', obj' := blocks[q := b], obj[q := o];
    forall p | p in blocks'
      ensures obj'[p] == Meaning(blocks'[p].tag, SlotMeanings(obj', blocks'[p].slots)) && obj'[p] != Junk
    {
      FrameMeanings(obj, obj', blocks'[p].slots);
    }
  }

  lemma StoreKeepsFresh(blocks: Blocks, next: Ptr, q: Ptr, b: Block, next': Ptr)
    requires Fresh(blocks, next) && q != NULL && q < next' && next <= next'
    ensures Fresh(blocks[q := b], next')
  {
  }

  lemma KeysAgree(blocks: Blocks, owner: map<Ptr, Owner>, rank: map<Ptr, nat>, obj: map<Ptr, Object>)
    requires OneOwner(blocks, owner) && Ranked(blocks, rank) && Meant(blocks, obj)
    ensures blocks.Keys == owner.Keys == rank.Keys == obj.Keys
  {
  }

  lemma StoreKeepsPlaces(blocks: Blocks, owner: map<Ptr, Owner>, q: Ptr, b: Block)
    requires Placed(blocks, owner) && q !in blocks && CanOwn(blocks, owner, b.slots)
    requires b.place == Home(b.tag) || (b.place == OnStack && Home(b.tag) == InBox)
    ensures Placed(blocks[q := b], Adopted(owner, q, b.slots))
  {
  }

  lemma StoreHolds(blocks: Blocks, owner: map<Ptr, Owner>, obj: map<Ptr, Object>, q: Ptr, b: Block, o: Object)
    requires owner.Keys == blocks.Keys == obj.Keys && q !in blocks && CanOwn(blocks, owner, b.slots)
    ensures Held(Adopted(owner, q, b.slots), obj[q := o]) == (Held(owner, obj) - Targets(b.slots))[q := o]
  {
  }

  /**
   Storing a new block whose slots take over blocks held directly keeps the heap a forest. The new
   block is held directly and what it took over no longer is.
   */
  lemma StoreKeepsForest(blocks: Blocks, next: Ptr, owner: map<Ptr, Owner>, rank: map<Ptr, nat>, obj: map<Ptr, Object>,
                         q: Ptr, b: Block, next': Ptr)
    requires Forest(blocks, next, owner, rank, obj)
    requires q !in blocks && q != NULL && q < next' && next <= next'
    requires CanOwn(blocks, owner, b.slots)
    requires Meaning(b.tag, SlotMeanings(obj, b.slots)) != Junk
    requires b.place == Home(b.tag) || (b.place == OnStack && Home(b.tag) == InBox)
    ensures rank.Keys == blocks.Keys
    ensures var o := Meaning(b.tag, SlotMeanings(obj, b.slots));
            && Forest(blocks[q := b], next', Adopted(owner, q, b.slots), rank[q := MaxRank(rank, b.slots) + 1],
                      obj[q := o])
            && Held(Adopted(owner, q, b.slots), obj[q := o]) == (Held(owner, obj) - Targets(b.slots))[q := o]
  {
    hide CanOwn, Targets, Meaning, SlotMeanings, OneOwner, Ranked, Meant, Placed, Held, Adopted, MaxRank, Fresh;
    StoreKeepsFresh(blocks, next, q, b, next');
    KeysAgree(blocks, owner, rank, obj);
    StoreKeepsOwners(blocks, owner, q, b);
    StoreKeepsRanks(blocks, owner, rank, q, b);
    StoreKeepsMeanings(blocks, owner, obj, q, b);
    StoreKeepsPlaces(blocks, owner, q, b);
    StoreHolds(blocks, owner, obj, q, b, Meaning(b.tag, SlotMeanings(obj, b.slots)));
  }

  /* ---------- removing a block ---------- */

  /** The owners once block `q` is gone: what its fields held is held directly. */
  ghost function Orphaned(owner: map<Ptr, Owner>, q: Ptr): map<Ptr, Owner> {
    map p | p in owner.Keys - {q} :: if owner[p].Field? && owner[p].of == q then Hand else owner[p]
  }

  ghost function Restrict(obj: map<Ptr, Object>, ps: set<Ptr>): map<Ptr, Object> {
    map p | p in ps && p in obj :: obj[p]
  }

  lemma RemoveKeepsOwners(blocks: Blocks, owner: map<Ptr, Owner>, q: Ptr)
    requires OneOwner(blocks, owner) && q in blocks && owner[q].Hand?
    ensures OneOwner(blocks - {q}, Orphaned(owner, q))
    ensures DistinctTargets(blocks[q].slots) && q !in Targets(blocks[q].slots)
    ensures forall p :: p in Targets(blocks[q].slots) <==> p in owner && owner[p].Field? && owner[p].of == q
  {
  }

  lemma RemoveKeepsMeanings(blocks: Blocks, owner: map<Ptr, Owner>, obj: map<Ptr, Object>, q: Ptr)
    requires OneOwner(blocks, owner) && Meant(blocks, obj) && q in blocks && owner[q].Hand?
    ensures Meant(blocks - {q}, obj - {q})
  {
    forall p | p in blocks - {q}
      ensures (obj - {q})[p] == Meaning(blocks[p].tag, SlotMeanings(obj - {q}, blocks[p].slots))
    {
      FrameMeanings(obj, obj - {q}, blocks[p].slots);
    }
  }

  lemma RemoveHolds(blocks: Blocks, owner: map<Ptr, Owner>, obj: map<Ptr, Object>, q: Ptr)
    requires OneOwner(blocks, owner) && obj.Keys == blocks.Keys && q in blocks && owner[q].Hand?
    ensures Held(Orphaned(owner, q), obj - {q}) == (Held(owner, obj) - {q}) + Restrict(obj, Targets(blocks[q].slots))
    ensures Targets(blocks[q].slots) !! Held(owner, obj).Keys
  {
    RemoveKeepsOwners(blocks, owner, q);
    assert owner.Keys == blocks.Keys;
    hide Targets, OneOwner;
    var before, after, kids := Held(owner, obj), Held(Orphaned(owner, q), obj - {q}),
        Restrict(obj, Targets(blocks[q].slots));
    forall p ensures p in after.Keys <==> p in ((before - {q}) + kids).Keys {
    }
    assert after.Keys == ((before - {q}) + kids).Keys;
  }

  lemma RemoveKeepsFresh(blocks: Blocks, next: Ptr, q: Ptr)
    requires Fresh(blocks, next)
    ensures Fresh(blocks - {q}, next)
  {
  }

  lemma RemoveKeepsRanks(blocks: Blocks, rank: map<Ptr, nat>, q: Ptr)
    requires Ranked(blocks, rank) && forall p :: p in blocks ==> q !in Targets(blocks[p].slots)
    ensures Ranked(blocks - {q}, rank - {q})
  {
  }

  lemma RemoveKeepsPlaces(blocks: Blocks, owner: map<Ptr, Owner>, q: Ptr)
    requires Placed(blocks, owner) && q in blocks
    ensures Placed(blocks - {q}, Orphaned(owner, q))
  {
    hide Home;
  }

  lemma OwnedOffStack(blocks: Blocks, owner: map<Ptr, Owner>, p: Ptr)
    requires Placed(blocks, owner) && p in blocks && owner[p].Field?
    ensures blocks[p].place != OnStack
  {
  }

  lemma RemoveFreesSlots(blocks: Blocks, owner: map<Ptr, Owner>, q: Ptr)
    requires OneOwner(blocks, owner) && Placed(blocks, owner) && q in blocks && owner[q].Hand?
    ensures CanOwn(blocks - {q}, Orphaned(owner, q), blocks[q].slots)
  {
    hide Placed;
    RemoveKeepsOwners(blocks, owner, q);
    forall i | 0 <= i < |blocks[q].slots| && blocks[q].slots[i].Own? ensures blocks[blocks[q].slots[i].p].place
        != OnStack {
      OwnedOffStack(blocks, owner, blocks[q].slots[i].p);
    }
  }

  lemma HeldIsNoTarget(blocks: Blocks, owner: map<Ptr, Owner>, q: Ptr)
    requires OneOwner(blocks, owner) && q in blocks && owner[q].Hand?
    ensures forall p :: p in blocks ==> q !in Targets(blocks[p].slots)
  {
  }

  /**
   Removing a block that is held directly keeps the heap a forest. Its slots' targets become held
   directly, so nothing is released and nothing is lost.
   */
  lemma RemoveKeepsForest(blocks: Blocks, next: Ptr, owner: map<Ptr, Owner>, rank: map<Ptr, nat>, obj: map<Ptr, Object>,
                          q: Ptr)
    requires Forest(blocks, next, owner, rank, obj)
    requires q in blocks && owner[q].Hand?
    ensures Forest(blocks - {q}, next, Orphaned(owner, q), rank - {q}, obj - {q})
    ensures Held(Orphaned(owner, q), obj - {q}) == (Held(owner, obj) - {q}) + Restrict(obj, Targets(blocks[q].slots))
    ensures DistinctTargets(blocks[q].slots) && q !in Targets(blocks[q].slots)
    ensures Targets(blocks[q].slots) !! Held(owner, obj).Keys
    ensures CanOwn(blocks - {q}, Orphaned(owner, q), blocks[q].slots)
  {
    hide Targets, Home, Meaning, SlotMeanings, OneOwner, Ranked, Meant, Placed, Held, Restrict, Orphaned, CanOwn;
    RemoveKeepsFresh(blocks, next, q);
    KeysAgree(blocks, owner, rank, obj);
    RemoveKeepsOwners(blocks, owner, q);
    HeldIsNoTarget(blocks, owner, q);
    RemoveKeepsRanks(blocks, rank, q);
    RemoveKeepsPlaces(blocks, owner, q);
    RemoveFreesSlots(blocks, owner, q);
    RemoveKeepsMeanings(blocks, owner, obj, q);
    RemoveHolds(blocks, owner, obj, q);
  }

  lemma BlockFacts(blocks: Blocks, next: Ptr, owner: map<Ptr, Owner>, rank: map<Ptr, nat>, obj: map<Ptr, Object>,
                   p: Ptr)
    requires Forest(blocks, next, owner, rank, obj) && p in blocks
    ensures blocks.Keys == rank.Keys == obj.Keys == owner.Keys
    ensures obj[p] == Meaning(blocks[p].tag, SlotMeanings(obj, blocks[p].slots)) && obj[p] != Junk
    ensures blocks[p].place == Home(blocks[p].tag) || (blocks[p].place == OnStack && Home(blocks[p].tag) == InBox)
    ensures forall q :: q in Targets(blocks[p].slots) ==> q in rank && rank[q] < rank[p]
    ensures Targets(blocks[p].slots) !! StackBlocks(blocks)
  {
    hide Meaning, SlotMeanings, Home, Meant;
    BlockMeaning(blocks, obj, p);
    forall q | q in Targets(blocks[p].slots) ensures q in rank && rank[q] < rank[p] && q !in StackBlocks(blocks) {
      OwnedOffStack(blocks, owner, q);
    }
  }

  lemma BlockMeaning(blocks: Blocks, obj: map<Ptr, Object>, p: Ptr)
    requires Meant(blocks, obj) && p in blocks
    ensures blocks.Keys == obj.Keys
    ensures obj[p] == Meaning(blocks[p].tag, SlotMeanings(obj, blocks[p].slots)) && obj[p] != Junk
  {
  }

  lemma NothingOwned(b: Block, obj: map<Ptr, Object>)
    requires Targets(b.slots) <= obj.Keys && OwnsNothing(Meaning(b.tag, SlotMeanings(obj, b.slots)))
    ensures Targets(b.slots) == {}
  {
    var slots := SlotMeanings(obj, b.slots);
    assert forall i :: 0 <= i < |b.slots| && b.slots[i].Own? ==> b.slots[i].p in Targets(b.slots);
    forall i | 0 <= i < |b.slots| ensures !b.slots[i].Own? {
      assert slots[i] == SlotMeaning(obj, b.slots[i]);
    }
  }

  lemma SlotsWithAnother(obj: map<Ptr, Object>, slots: seq<Slot>, s: Ptr)
    requires s in obj
    ensures SlotMeanings(obj, slots + [Own(s)]) == SlotMeanings(obj, slots) + [Is(obj[s])]
    ensures Targets(slots + [Own(s)]) == Targets(slots) + {s}
    ensures DistinctTargets(slots) && s !in Targets(slots) ==> DistinctTargets(slots + [Own(s)])
  {
    var more := slots + [Own(s)];
    forall p | p in Targets(slots) + {s} ensures p in Targets(more) {
      if p != s {
        var i :| 0 <= i < |slots| && slots[i] == Own(p);
        assert more[i] == Own(p);
      } else {
        assert more[|slots|] == Own(p);
      }
    }
  }

  /** What a pointer that may be NULL means when stored in a cell. */
  ghost function Cell(view: map<Ptr, Object>, p: Ptr): SlotObj {
    if p in view then Is(view[p]) else NullObj
  }

  lemma SlotsWithTwoMore(obj: map<Ptr, Object>, slots: seq<Slot>, k: Slot, v: Slot)
    requires !k.Moved? && !v.Moved? && (k.Own? <==> v.Own?) && (k.Own? ==> k.p in obj && v.p in obj)
    ensures SlotMeanings(obj, slots + [k, v]) == SlotMeanings(obj, slots) + [SlotMeaning(obj, k), SlotMeaning(obj, v)]
    ensures Targets(slots + [k, v]) == Targets(slots) + (if k.Own? then {k.p, v.p} else {})
    ensures DistinctTargets(slots) && (k.Own? ==> k.p != v.p && k.p !in Targets(slots) && v.p !in Targets(slots)) ==>
              DistinctTargets(slots + [k, v])
  {
    if k.Own? {
      SlotsWithAnother(obj, slots, k.p);
      SlotsWithAnother(obj, slots + [k], v.p);
      assert slots + [k, v] == slots + [k] + [v];
    } else {
      var more := slots + [k, v];
      forall p | p in Targets(slots) ensures p in Targets(more) {
        var i :| 0 <= i < |slots| && slots[i] == Own(p);
        assert more[i] == Own(p);
      }
    }
  }

  lemma MetadataGrows(obj: map<Ptr, Object>, tag: Tag, slots: seq<Slot>, k: Slot, v: Slot, count: nat)
    requires Meaning(tag, SlotMeanings(obj, slots)).MetadataObj?
    requires |Meaning(tag, SlotMeanings(obj, slots)).counts| < Meaning(tag, SlotMeanings(obj, slots)).capacity
    requires !k.Moved? && !v.Moved? && (k.Own? <==> v.Own?) && (k.Own? ==> k.p in obj && v.p in obj)
    ensures tag.MetadataArray? && Home(tag) == InMalloc && Home(tag.(counts := tag.counts + [count])) == InMalloc
    ensures var o := Meaning(tag, SlotMeanings(obj, slots));
            Meaning(tag.(counts := tag.counts + [count]), SlotMeanings(obj, slots + [k, v])) ==
              MetadataObj(o.capacity, o.counts + [count], o.slots + [SlotMeaning(obj, k), SlotMeaning(obj, v)])
  {
    hide Targets, DistinctTargets;
    SlotsWithTwoMore(obj, slots, k, v);
  }

  lemma SlotsWithout(obj: map<Ptr, Object>, slots: seq<Slot>, i: nat)
    requires i < |slots| && slots[i].Own? && DistinctTargets(slots)
    ensures SlotMeanings(obj, slots[i := Moved]) == SlotMeanings(obj, slots)[i := Gone]
    ensures Targets(slots) == Targets(slots[i := Moved]) + {slots[i].p} && slots[i].p !in Targets(slots[i := Moved])
    ensures DistinctTargets(slots[i := Moved])
  {
    var less := slots[i := Moved];
    forall p | p in Targets(slots) && p != slots[i].p ensures p in Targets(less) {
      var j :| 0 <= j < |slots| && slots[j] == Own(p);
      assert less[j] == Own(p);
    }
    assert slots[i].p in Targets(slots);
  }

  /** What is left when a block is removed and all it owned is dropped. */
  lemma Unheld(view: map<Ptr, Object>, obj: map<Ptr, Object>, p: Ptr, owned: set<Ptr>)
    requires owned !! view.Keys
    ensures (view - {p}) + Restrict(obj, owned) - owned == view - {p}
  {
  }

  lemma StaysInView(view: map<Ptr, Object>, obj: map<Ptr, Object>, p: Ptr, owned: set<Ptr>)
    ensures forall q :: q in view && q != p ==> q in (view - {p}) + Restrict(obj, owned)
    ensures forall q :: q in owned && q in obj ==> q in (view - {p}) + Restrict(obj, owned)
  {
  }

  /** What is left when a block takes over held ones. */
  lemma TakenOver(view: map<Ptr, Object>, obj: map<Ptr, Object>, a: Ptr, o: Object, owned: set<Ptr>, taken: set<Ptr>)
    requires owned !! view.Keys && a !in taken
    ensures (view - {a} + Restrict(obj, owned) - (owned + taken))[a := o] == (view - taken)[a := o]
  {
  }

  /** What is left when a block gives up one of the blocks it owns. */
  lemma GivenUp(view: map<Ptr, Object>, obj: map<Ptr, Object>, a: Ptr, o: Object, less: set<Ptr>, p: Ptr)
    requires p in obj && p !in less && less !! view.Keys && p !in view && a != p
    ensures (view - {a} + Restrict(obj, less + {p}) - less)[a := o] == view[a := o][p := obj[p]]
  {
  }

  lemma NodesOwnNodes(obj: map<Ptr, Object>, b: Block)
    requires Meaning(b.tag, SlotMeanings(obj, b.slots)).ExprObj?
    ensures b.tag.Node?
    ensures forall i :: 0 <= i < |b.slots| ==> b.slots[i].Own? && b.slots[i].p in obj && obj[b.slots[i].p].ExprObj?
  {
    forall i | 0 <= i < |b.slots| ensures b.slots[i].Own? && b.slots[i].p in obj && obj[b.slots[i].p].ExprObj? {
      assert SlotMeanings(obj, b.slots)[i] == SlotMeaning(obj, b.slots[i]);
    }
  }

  ghost predicate AreNodes(slots: seq<Slot>, obj: map<Ptr, Object>) {
    forall i :: 0 <= i < |slots| ==> slots[i].Own? && slots[i].p in obj && obj[slots[i].p].ExprObj?
  }

  ghost predicate RankedBelow(slots: seq<Slot>, rank: map<Ptr, nat>, bound: nat) {
    forall i :: 0 <= i < |slots| && slots[i].Own? ==> slots[i].p in rank && rank[slots[i].p] < bound
  }

  ghost predicate Grown<T>(m: map<Ptr, T>, m': map<Ptr, T>) {
    m.Keys <= m'.Keys && forall p :: p in m ==> m'[p] == m[p]
  }

  lemma GrownKeys<T>(m: map<Ptr, T>, m': map<Ptr, T>)
    requires Grown(m, m')
    ensures m.Keys <= m'.Keys
  {
  }

  lemma StillGrown<T>(m: map<Ptr, T>, m': map<Ptr, T>, m'': map<Ptr, T>)
    requires Grown(m, m') && (Grown(m', m'') || (m'.Keys <= m''.Keys && forall p :: p in m' ==> m''[p] == m'[p]))
    ensures Grown(m, m'')
  {
  }

  lemma StillNodes(slots: seq<Slot>, obj: map<Ptr, Object>, obj': map<Ptr, Object>, rank: map<Ptr, nat>,
                   rank': map<Ptr, nat>, bound: nat)
    requires AreNodes(slots, obj) && RankedBelow(slots, rank, bound) && Grown(obj, obj') && Grown(rank, rank')
    ensures AreNodes(slots, obj') && RankedBelow(slots, rank', bound)
    ensures forall i :: 0 <= i < |slots| ==> obj'[slots[i].p] == obj[slots[i].p]
  {
  }

  /** The copies mean in `view` what the originals mean in `obj`. */
  ghost predicate Copied(slots: seq<Slot>, obj: map<Ptr, Object>, copies: seq<Slot>, view: map<Ptr, Object>) {
    && |slots| == |copies|
    && forall i :: 0 <= i < |slots| ==>
         && slots[i].Own? && copies[i].Own? && slots[i].p in obj
         && copies[i].p in view && view[copies[i].p] == obj[slots[i].p]
  }

  lemma NothingCopied(obj: map<Ptr, Object>, view: map<Ptr, Object>)
    ensures Copied([], obj, [], view)
  {
  }

  lemma CopiedOneMore(slots: seq<Slot>, obj: map<Ptr, Object>, obj': map<Ptr, Object>, head: Ptr, rest: seq<Slot>,
                      view: map<Ptr, Object>)
    requires slots != [] && slots[0].Own? && slots[0].p in obj && head in view && view[head] == obj[slots[0].p]
    requires AreNodes(slots, obj) && Grown(obj, obj') && Copied(slots[1..], obj', rest, view)
    ensures Copied(slots, obj, [Own(head)] + rest, view)
  {
    forall i | 0 < i < |slots|
      ensures rest[i - 1].Own? && rest[i - 1].p in view && view[rest[i - 1].p] == obj[slots[i].p]
    {
      assert slots[1..][i - 1] == slots[i];
    }
  }

  lemma CopiesMeanTheSame(obj: map<Ptr, Object>, slots: seq<Slot>, view: map<Ptr, Object>, copies: seq<Slot>)
    requires Copied(slots, obj, copies, view)
    ensures SlotMeanings(view, copies) == SlotMeanings(obj, slots)
  {
  }

  lemma OneMoreCopy(head: Ptr, rest: seq<Slot>, view0: map<Ptr, Object>, view1: map<Ptr, Object>,
                    view2: map<Ptr, Object>, keys0: set<Ptr>)
    requires head !in view0 && head !in keys0 && head in view1 && view1 - {head} == view0
    requires view2 - Targets(rest) == view1 && Targets(rest) <= view2.Keys
    requires Targets(rest) !! keys0 + {head} && DistinctTargets(rest)
    ensures var copies := [Own(head)] + rest;
            && Targets(copies) == {head} + Targets(rest) && Targets(copies) !! keys0 && DistinctTargets(copies)
            && view2 - Targets(copies) == view0 && Targets(copies) <= view2.Keys
            && head in view2 && view2[head] == view1[head]
  {
    var copies := [Own(head)] + rest;
    assert copies[1..] == rest;
    TargetsOf(copies);
    TargetsOf(rest);
    hide Targets;
    assert head in view2 by { assert head in view2 - Targets(rest); }
  }

  lemma KidsAreBoxes(b: Block, obj: map<Ptr, Object>)
    requires Meaning(b.tag, SlotMeanings(obj, b.slots)) != Junk && Home(b.tag) == InBox
    ensures forall i :: 0 <= i < |b.slots| ==>
              b.slots[i].Own? && b.slots[i].p in obj && HomeOfObject(obj[b.slots[i].p]) == InBox
  {
    BoxesOwnBoxes(b.tag, SlotMeanings(obj, b.slots));
    forall i | 0 <= i < |b.slots|
      ensures b.slots[i].Own? && b.slots[i].p in obj && HomeOfObject(obj[b.slots[i].p]) == InBox
    {
      assert SlotMeanings(obj, b.slots)[i] == SlotMeaning(obj, b.slots[i]);
    }
  }

  lemma TargetsOf(slots: seq<Slot>)
    ensures forall i :: 0 <= i < |slots| && slots[i].Own? ==> slots[i].p in Targets(slots)
    ensures slots == [] ==> Targets(slots) == {}
    ensures slots != [] && slots[0].Own? ==> Targets(slots) == {slots[0].p} + Targets(slots[1..])
    ensures slots != [] && !slots[0].Own? ==> Targets(slots) == Targets(slots[1..])
    ensures DistinctTargets(slots) && slots != [] && slots[0].Own? ==> slots[0].p !in Targets(slots[1..])
  {
    if slots != [] {
      forall p | p in Targets(slots) && slots[0] != Own(p) ensures p in Targets(slots[1..]) {
        var i :| 0 <= i < |slots| && slots[i] == Own(p);
        assert slots[1..][i - 1] == Own(p);
      }
      forall p | p in Targets(slots[1..]) ensures p in Targets(slots) {
        var i :| 0 <= i < |slots[1..]| && slots[1..][i] == Own(p);
        assert slots[i + 1] == Own(p);
      }
    }
  }

  /* ---------- consequences ---------- */

  /** Each block on the path is owned by the next one. */
  ghost predicate Path(owner: map<Ptr, Owner>, path: seq<Ptr>) {
    path != [] &&
    forall i :: 0 <= i < |path| - 1 ==> path[i] in owner && owner[path[i]].Field? && owner[path[i]].of == path[i + 1]
  }

  /** A path from `p` up to `q`. */
  ghost predicate Leads(owner: map<Ptr, Owner>, path: seq<Ptr>, p: Ptr, q: Ptr) {
    Path(owner, path) && path[0] == p && path[|path| - 1] == q
  }

  /** `q` is `p`, or owns it directly or through other blocks. */
  ghost predicate Above(owner: map<Ptr, Owner>, q: Ptr, p: Ptr) {
    exists path :: Leads(owner, path, p, q)
  }

  /* ---------- dropping a tree ---------- */

  /** Blocks have been removed; those that are left, and their owners, are the same. */
  ghost predicate Pruned(blocks: Blocks, owner: map<Ptr, Owner>, blocks': Blocks, owner': map<Ptr, Owner>) {
    && blocks'.Keys <= blocks.Keys && owner'.Keys == blocks'.Keys && blocks.Keys == owner.Keys
    && forall q :: q in blocks' ==> blocks'[q] == blocks[q] && owner'[q] == owner[q]
  }

  /** Only blocks below one of the roots have been removed. */
  ghost predicate Felled(blocks: Blocks, owner: map<Ptr, Owner>, roots: set<Ptr>, blocks': Blocks,
                         owner': map<Ptr, Owner>) {
    && Pruned(blocks, owner, blocks', owner')
    && forall q :: q in blocks && q !in blocks' ==> BelowOneOf(owner, roots, q)
  }

  /** Exactly `p` and what it owns, directly or through other blocks, has been removed; the rest is the same. */
  ghost predicate TreeDropped(blocks: Blocks, owner: map<Ptr, Owner>, p: Ptr, blocks': Blocks) {
    && blocks'.Keys <= blocks.Keys
    && forall q :: q in blocks ==>
         && (q in blocks' <==> !Above(owner, p, q))
         && (q in blocks' ==> blocks'[q] == blocks[q])
  }

  lemma FelledFacts(blocks: Blocks, owner: map<Ptr, Owner>, roots: set<Ptr>, blocks': Blocks, owner': map<Ptr, Owner>)
    requires Felled(blocks, owner, roots, blocks', owner')
    ensures Pruned(blocks, owner, blocks', owner')
  {
  }

  ghost predicate BelowOneOf(owner: map<Ptr, Owner>, roots: set<Ptr>, q: Ptr) {
    exists r :: r in roots && Above(owner, r, q)
  }

  lemma AbovePruned(blocks: Blocks, owner: map<Ptr, Owner>, blocks': Blocks, owner': map<Ptr, Owner>, r: Ptr, q: Ptr)
    requires Pruned(blocks, owner, blocks', owner') && Above(owner', r, q)
    ensures Above(owner, r, q)
  {
    var path :| Leads(owner', path, q, r);
    assert Leads(owner, path, q, r);
  }

  lemma NothingFelled(blocks: Blocks, owner: map<Ptr, Owner>)
    requires blocks.Keys == owner.Keys
    ensures Felled(blocks, owner, {}, blocks, owner)
  {
  }

  lemma FelledTwice(blocks: Blocks, owner: map<Ptr, Owner>, r: Ptr, blocks': Blocks, owner': map<Ptr, Owner>,
                    roots: set<Ptr>, blocks'': Blocks, owner'': map<Ptr, Owner>)
    requires Felled(blocks, owner, {r}, blocks', owner') && Felled(blocks', owner', roots, blocks'', owner'')
    ensures Felled(blocks, owner, {r} + roots, blocks'', owner'')
  {
    hide Above;
    forall q | q in blocks && q !in blocks'' ensures BelowOneOf(owner, {r} + roots, q) {
      if q in blocks' {
        assert BelowOneOf(owner', roots, q);
        var s :| s in roots && Above(owner', s, q);
        AbovePruned(blocks, owner, blocks', owner', s, q);
      } else {
        assert BelowOneOf(owner, {r}, q);
      }
    }
  }

  lemma AboveThroughKid(blocks: Blocks, owner: map<Ptr, Owner>, p: Ptr, kid: Ptr, q: Ptr)
    requires OneOwner(blocks, owner) && p in blocks && kid in Targets(blocks[p].slots)
    requires Above(Orphaned(owner, p), kid, q)
    ensures Above(owner, p, q)
  {
    OwnerOfTarget(blocks, owner, p, kid);
    hide OneOwner, Targets, Orphaned, Path;
    var path :| Leads(Orphaned(owner, p), path, q, kid);
    PathBefore(owner, p, path);
    PathToOwner(owner, path, p);
    assert Leads(owner, path + [p], q, p);
  }

  lemma OwnerOfTarget(blocks: Blocks, owner: map<Ptr, Owner>, p: Ptr, kid: Ptr)
    requires OneOwner(blocks, owner) && p in blocks && kid in Targets(blocks[p].slots)
    ensures kid in owner && owner[kid].Field? && owner[kid].of == p
  {
    var i :| 0 <= i < |blocks[p].slots| && blocks[p].slots[i] == Own(kid);
    assert owner[kid] == Field(p, i);
  }

  lemma PathBefore(owner: map<Ptr, Owner>, p: Ptr, path: seq<Ptr>)
    requires Path(Orphaned(owner, p), path)
    ensures Path(owner, path)
  {
  }

  lemma PathToOwner(owner: map<Ptr, Owner>, path: seq<Ptr>, p: Ptr)
    requires Path(owner, path) && path[|path| - 1] in owner
    requires owner[path[|path| - 1]].Field? && owner[path[|path| - 1]].of == p
    ensures Path(owner, path + [p]) && path != [] && (path + [p])[0] == path[0]
  {
  }

  /** Removing a held block and felling the trees below it fells its own tree. */
  lemma FelledFromRoot(blocks: Blocks, owner: map<Ptr, Owner>, p: Ptr, blocks': Blocks, owner': map<Ptr, Owner>)
    requires OneOwner(blocks, owner) && p in blocks
    requires Felled(blocks - {p}, Orphaned(owner, p), Targets(blocks[p].slots), blocks', owner')
    requires Targets(blocks[p].slots) !! blocks'.Keys
    ensures Felled(blocks, owner, {p}, blocks', owner')
  {
    hide Above, Targets;
    forall q | q in blocks' ensures blocks'[q] == blocks[q] && owner'[q] == owner[q] {
      OwnedIsTarget(blocks, owner, p, q);
    }
    forall q | q in blocks && q !in blocks' ensures BelowOneOf(owner, {p}, q) {
      if q == p {
        AboveItself(owner, p);
      } else {
        assert BelowOneOf(Orphaned(owner, p), Targets(blocks[p].slots), q);
        var kid :| kid in Targets(blocks[p].slots) && Above(Orphaned(owner, p), kid, q);
        AboveThroughKid(blocks, owner, p, kid, q);
      }
    }
  }

  lemma KidBecomesHeld(blocks: Blocks, owner: map<Ptr, Owner>, p: Ptr, kid: Ptr)
    requires OneOwner(blocks, owner) && p in blocks && kid in Targets(blocks[p].slots) && kid != p
    ensures kid in Orphaned(owner, p) && Orphaned(owner, p)[kid].Hand?
  {
    var i :| 0 <= i < |blocks[p].slots| && blocks[p].slots[i] == Own(kid);
    assert owner[kid] == Field(p, i);
  }

  lemma AboveItself(owner: map<Ptr, Owner>, p: Ptr)
    ensures Above(owner, p, p)
  {
    assert Leads(owner, [p], p, p);
  }

  lemma OwnedIsTarget(blocks: Blocks, owner: map<Ptr, Owner>, p: Ptr, q: Ptr)
    requires OneOwner(blocks, owner) && p in blocks && q in blocks
    ensures owner[q].Field? && owner[q].of == p ==> q in Targets(blocks[p].slots)
  {
  }

  lemma {:induction false} PathStays(blocks: Blocks, owner: map<Ptr, Owner>, blocks': Blocks, owner': map<Ptr, Owner>,
                                     path: seq<Ptr>)
    requires Pruned(blocks, owner, blocks', owner') && OneOwner(blocks', owner')
    requires Path(owner, path) && path[0] in blocks'
    ensures path[|path| - 1] in blocks'
    decreases |path|
  {
    if |path| > 1 {
      assert owner'[path[0]] == owner[path[0]];
      PathStays(blocks, owner, blocks', owner', path[1..]);
    }
  }

  /** When its root is gone, a felled tree is gone with every block of it. */
  lemma WholeTreeIsGone(blocks: Blocks, owner: map<Ptr, Owner>, p: Ptr, blocks': Blocks, owner': map<Ptr, Owner>)
    requires Felled(blocks, owner, {p}, blocks', owner') && OneOwner(blocks', owner') && p !in blocks'
    ensures forall q :: q in blocks ==> (q in blocks' <==> !Above(owner, p, q))
  {
    hide OneOwner;
    forall q | q in blocks ensures q in blocks' <==> !Above(owner, p, q) {
      if q !in blocks' {
        assert BelowOneOf(owner, {p}, q);
      } else if Above(owner, p, q) {
        var path :| Leads(owner, path, q, p);
        PathStays(blocks, owner, blocks', owner', path);
      }
    }
  }

  /* ---------- what follows for the whole heap ---------- */

  lemma OwnersRankHigher(blocks: Blocks, owner: map<Ptr, Owner>, rank: map<Ptr, nat>, p: Ptr)
    requires OneOwner(blocks, owner) && Ranked(blocks, rank) && p in blocks
    ensures p in owner && p in rank && rank.Keys == owner.Keys == blocks.Keys
    ensures owner[p].Field? ==> owner[p].of in blocks && rank[p] < rank[owner[p].of]
  {
  }

  lemma PathFrom(owner: map<Ptr, Owner>, p: Ptr)
    ensures Path(owner, [p])
  {
  }

  lemma PathFromBelow(owner: map<Ptr, Owner>, p: Ptr, path: seq<Ptr>)
    requires Path(owner, path) && p in owner && owner[p].Field? && owner[p].of == path[0]
    ensures Path(owner, [p] + path) && path != [] && ([p] + path)[|path|] == path[|path| - 1]
  {
  }

  /** A block that is not held directly has an ancestor that is: ownership is never circular. */
  lemma {:induction false} HasHeldAncestor(blocks: Blocks, owner: map<Ptr, Owner>, rank: map<Ptr, nat>,
                                           obj: map<Ptr, Object>, p: Ptr, bound: nat) returns (path: seq<Ptr>)
    requires OneOwner(blocks, owner) && Ranked(blocks, rank) && obj.Keys == blocks.Keys && p in blocks
    requires forall q :: q in blocks ==> rank[q] <= bound
    ensures Path(owner, path) && path[0] == p && path[|path| - 1] in Held(owner, obj)
    decreases bound - rank[p]
  {
    hide OneOwner, Ranked, Path;
    OwnersRankHigher(blocks, owner, rank, p);
    if owner[p].Field? {
      path := HasHeldAncestor(blocks, owner, rank, obj, owner[p].of, bound);
      PathFromBelow(owner, p, path);
      path := [p] + path;
    } else {
      PathFrom(owner, p);
      path := [p];
    }
  }

  ghost function RankBound(rank: map<Ptr, nat>): (bound: nat)
    ensures forall p :: p in rank ==> rank[p] <= bound
    decreases |rank|
  {
    if rank == map[] then 0
    else
      assert rank.Keys != {};
      var p :| p in rank.Keys;
      var rest := RankBound(rank - {p});
      assert forall q :: q in rank && q != p ==> q in rank - {p};
      if rest < rank[p] then rank[p] else rest
  }

  /** Nothing leaks: once nothing is held, not a single block is left. */
  lemma NothingHeldNothingLeft(blocks: Blocks, next: Ptr, owner: map<Ptr, Owner>, rank: map<Ptr, nat>,
                               obj: map<Ptr, Object>)
    requires Forest(blocks, next, owner, rank, obj)
    requires Held(owner, obj) == map[]
    ensures blocks == map[]
  {
    if blocks.Keys != {} {
      var p :| p in blocks.Keys;
      var path := HasHeldAncestor(blocks, owner, rank, obj, p, RankBound(rank));
    }
  }

  /* ---------- exact rollback ---------- */

  /**
   The heap is `base` plus blocks that came later: nothing in `base` has been touched, and no later
   block owns a block of `base`.
   */
  ghost predicate Apart(base: Blocks, blocks: Blocks) {
    && base.Keys <= blocks.Keys
    && (forall p :: p in base ==> blocks[p] == base[p])
    && (forall p, i :: p in blocks && p !in base && 0 <= i < |blocks[p].slots| && blocks[p].slots[i].Own? ==>
          blocks[p].slots[i].p !in base)
  }

  lemma ApartFromItself(blocks: Blocks)
    ensures Apart(blocks, blocks)
  {
  }

  lemma ApartWith(base: Blocks, blocks: Blocks, p: Ptr, b: Block)
    requires Apart(base, blocks) && p !in base
    requires forall i :: 0 <= i < |b.slots| && b.slots[i].Own? ==> b.slots[i].p !in base
    ensures Apart(base, blocks[p := b])
  {
  }

  lemma ApartWithout(base: Blocks, blocks: Blocks, p: Ptr)
    requires Apart(base, blocks) && p !in base
    ensures Apart(base, blocks - {p})
  {
  }

  lemma OwnerIsLater(base: Blocks, baseOwner: map<Ptr, Owner>, blocks: Blocks, owner: map<Ptr, Owner>, p: Ptr)
    requires OneOwner(base, baseOwner) && Apart(base, blocks) && OneOwner(blocks, owner)
    requires p in blocks && p !in base && owner[p].Field?
    ensures owner[p].of !in base
  {
  }

  /** A later block lies below a later handle: the path up to it passes through later blocks only. */
  lemma {:induction false} LaterHasLaterHolder(base: Blocks, baseOwner: map<Ptr, Owner>, blocks: Blocks,
                                               owner: map<Ptr, Owner>, rank: map<Ptr, nat>, obj: map<Ptr, Object>,
                                               p: Ptr, bound: nat) returns (path: seq<Ptr>)
    requires OneOwner(base, baseOwner) && Apart(base, blocks)
    requires OneOwner(blocks, owner) && Ranked(blocks, rank) && obj.Keys == blocks.Keys
    requires p in blocks && p !in base && forall q :: q in rank ==> rank[q] <= bound
    ensures Path(owner, path) && path[0] == p && path[|path| - 1] in Held(owner, obj)
    ensures forall i :: 0 <= i < |path| ==> path[i] in blocks && path[i] !in base
    decreases bound - rank[p]
  {
    hide OneOwner, Ranked, Path, Apart;
    OwnersRankHigher(blocks, owner, rank, p);
    if owner[p].Field? {
      OwnerIsLater(base, baseOwner, blocks, owner, p);
      path := LaterHasLaterHolder(base, baseOwner, blocks, owner, rank, obj, owner[p].of, bound);
      PathFromBelow(owner, p, path);
      path := [p] + path;
    } else {
      PathFrom(owner, p);
      path := [p];
    }
  }

  /** If nothing older was touched and nothing newer is held, the heap is exactly what it was. */
  lemma RestoredExactly(base: Blocks, baseOwner: map<Ptr, Owner>, blocks: Blocks, owner: map<Ptr, Owner>,
                        rank: map<Ptr, nat>, obj: map<Ptr, Object>)
    requires OneOwner(base, baseOwner) && Apart(base, blocks)
    requires OneOwner(blocks, owner) && Ranked(blocks, rank) && obj.Keys == blocks.Keys
    requires forall p :: p in Held(owner, obj) ==> p in base
    ensures blocks == base
  {
    hide OneOwner, Ranked, Held;
    if p :| p in blocks && p !in base {
      var path := LaterHasLaterHolder(base, baseOwner, blocks, owner, rank, obj, p, RankBound(rank));
    }
    assert blocks.Keys == base.Keys;
  }
}
