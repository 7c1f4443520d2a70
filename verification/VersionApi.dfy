/** Parallel key/value arrays and the nested per-version metadata of lancedb_table_list_versions (src/table.rs). */
module VersionApi {
  import opened Basics
  import opened Objects
  import opened Memory
  import opened HeapModel
  import opened Messages
  import opened Errors
  import opened Marshal

  type Entries = seq<(string, string)>

  /** `CString::new(text).unwrap_or_default()`: text with a NUL byte becomes the empty string. */
  function OrEmpty(text: string): (r: CText)
    ensures NulFree(text) ==> r == text
    ensures !NulFree(text) ==> r == ""
  {
    if NulFree(text) then text else ""
  }

  function Keys(es: Entries): (ks: seq<string>)
    ensures |ks| == |es| && forall i :: 0 <= i < |es| ==> ks[i] == OrEmpty(es[i].0)
  {
    seq(|es|, i requires 0 <= i < |es| => OrEmpty(es[i].0))
  }

  function Values(es: Entries): (vs: seq<string>)
    ensures |vs| == |es| && forall i :: 0 <= i < |es| ==> vs[i] == OrEmpty(es[i].1)
  {
    seq(|es|, i requires 0 <= i < |es| => OrEmpty(es[i].1))
  }

  /** Releases an array that may be NULL and is still empty. */
  method FreeEmpty(h: Heap, a: Ptr, ghost capacity: nat, ghost base: Blocks)
    requires h.Valid() && Apart(base, h.blocks) && a !in base
    requires a == NULL || (a in h.View() && h.View()[a] == ArrayObj(capacity, []))
    modifies h
    ensures h.Valid() && h.Temps() == old(h.Temps()) && Apart(base, h.blocks) && h.View() == old(h.View()) - {a}
  {
    hide Forest, Held, StackBlocks, Apart;
    h.HeldAreLive();
    if a != NULL {
      FreeArray(h, a, base);
    }
  }

  method FreeBoth(h: Heap, a: Ptr, b: Ptr, ghost capacity: nat, ghost base: Blocks)
    requires h.Valid() && Apart(base, h.blocks) && a !in base && b !in base && (a == NULL || a != b)
    requires a == NULL || (a in h.View() && h.View()[a] == ArrayObj(capacity, []))
    requires b == NULL || (b in h.View() && h.View()[b] == ArrayObj(capacity, []))
    modifies h
    ensures h.Valid() && h.Temps() == old(h.Temps()) && Apart(base, h.blocks) && h.View() == old(h.View()) - {a, b}
  {
    hide Forest, Held, StackBlocks, Apart;
    FreeEmpty(h, a, capacity, base);
    FreeEmpty(h, b, capacity, base);
  }

  /** Releases the array that was granted when the other was not. */
  method GiveUpBoth(h: Heap, a: Ptr, b: Ptr, ghost count: nat, ghost view0: map<Ptr, Object>, ghost base: Blocks)
    requires h.Valid() && Apart(base, h.blocks) && a !in base && b !in base && {a, b} !! view0.Keys
    requires a == NULL || b == NULL
    requires if a != NULL then h.View() == view0[a := ArrayObj(count, [])]
             else if b != NULL then h.View() == view0[b := ArrayObj(count, [])] else h.View() == view0
    modifies h
    ensures h.Valid() && h.Temps() == old(h.Temps()) && Apart(base, h.blocks) && h.View() == view0
  {
    hide Forest, Held, StackBlocks, Apart, Home, HomeOfObject;
    h.HeldAreLive();
    if a != NULL {
      Undone(view0, a, ArrayObj(count, []));
    } else if b != NULL {
      Undone(view0, b, ArrayObj(count, []));
    }
    FreeBoth(h, a, b, count, base);
    h.HeldAreLive();
  }

  /** Allocates both arrays, or neither; `grant` is malloc's answer for the keys and for the values. */
  method NewArrays(h: Heap, count: nat, grant: (bool, bool), ghost base: Blocks) returns (keys: Ptr, values: Ptr)
    requires h.Valid() && Apart(base, h.blocks) && NULL !in base
    modifies h
    ensures h.Valid() && h.Temps() == old(h.Temps()) && Apart(base, h.blocks) && (keys == NULL <==> values == NULL)
    ensures keys != NULL <==> grant.0 && grant.1
    ensures keys == NULL ==> h.View() == old(h.View())
    ensures keys != NULL ==>
              && keys != values && {keys, values} !! old(h.View()).Keys && {keys, values} !! base.Keys
              && {keys, values} !! h.Temps()
              && h.View() == old(h.View())[keys := ArrayObj(count, [])][values := ArrayObj(count, [])]
  {
    hide Forest, Held, StackBlocks, Apart, Home, HomeOfObject;
    ghost var view0 := h.View();
    h.HeldAreLive();
    keys := NewArray(h, count, grant.0, base);
    h.HeldAreLive();
    ghost var view1 := h.View();
    values := NewArray(h, count, grant.1, base);
    if keys == NULL || values == NULL {
      GiveUpBoth(h, keys, values, count, view0, base);
      return NULL, NULL;
    }
  }

  method PushPair(h: Heap, keys: Ptr, values: Ptr, es: Entries, j: nat, ghost view0: map<Ptr, Object>,
                  ghost base: Blocks)
    requires h.Valid() && Apart(base, h.blocks) && {keys, values} !! base.Keys + h.Temps() && keys != values
    requires j < |es|
    requires h.View() ==
               view0[keys := ArrayObj(|es|, StringCells(Keys(es)[..j]))]
                    [values := ArrayObj(|es|, StringCells(Values(es)[..j]))]
    modifies h
    ensures h.Valid() && h.Temps() == old(h.Temps()) && Apart(base, h.blocks)
    ensures h.View() ==
              view0[keys := ArrayObj(|es|, StringCells(Keys(es)[..j + 1]))]
                   [values := ArrayObj(|es|, StringCells(Values(es)[..j + 1]))]
  {
    hide Forest, Held, StackBlocks, Apart, NulFree, Home, HomeOfObject, StringCells;
    StringCellsNext(Keys(es), j);
    StringCellsNext(Values(es), j);
    PushString(h, keys, OrEmpty(es[j].0), base);
    PushString(h, values, OrEmpty(es[j].1), base);
  }

  /** Allocates and fills two parallel arrays. Both are NULL exactly if either malloc failed. */
  method MarshalPairs(h: Heap, es: Entries, grant: (bool, bool), ghost base: Blocks) returns (keys: Ptr, values: Ptr)
    requires h.Valid() && Apart(base, h.blocks) && NULL !in base
    modifies h
    ensures h.Valid() && h.Temps() == old(h.Temps()) && Apart(base, h.blocks) && (keys == NULL <==> values == NULL)
    ensures keys != NULL <==> grant.0 && grant.1
    ensures keys == NULL ==> h.View() == old(h.View())
    ensures keys != NULL ==>
              && keys != values && {keys, values} !! old(h.View()).Keys && {keys, values} !! base.Keys
              && {keys, values} !! h.Temps()
              && h.View() == old(h.View())[keys := StringList(Keys(es))][values := StringList(Values(es))]
  {
    hide Forest, Held, StackBlocks, Apart, NulFree, Home, HomeOfObject;
    ghost var view0 := h.View();
    keys, values := NewArrays(h, |es|, grant, base);
    if keys == NULL {
      return;
    }
    var j := 0;
    ghost var n := |es|;
    assert StringCells(Keys(es)[..0]) == [] && StringCells(Values(es)[..0]) == [];
    while j < |es|
      invariant j <= |es|
      invariant h.Valid() && h.Temps() == old(h.Temps()) && Apart(base, h.blocks)
      invariant h.View() ==
                  view0[keys := ArrayObj(n, StringCells(Keys(es)[..j]))]
                       [values := ArrayObj(n, StringCells(Values(es)[..j]))]
    {
      PushPair(h, keys, values, es, j, view0, base);
      j := j + 1;
    }
    assert Keys(es)[..j] == Keys(es) && Values(es)[..j] == Values(es);
  }

  /* ---------- the array of { keys, values, count } structs ---------- */

  function EntryCells(es: Entries): (cells: seq<SlotObj>)
    ensures |cells| == 2
  {
    if es == [] then [NullObj, NullObj] else [Is(StringList(Keys(es))), Is(StringList(Values(es)))]
  }

  function MetadataCells(mds: seq<Entries>): (cells: seq<SlotObj>)
    ensures |cells| == 2 * |mds|
    ensures forall k :: 0 <= k < 2 * |mds| ==> cells[k] == EntryCells(mds[k / 2])[k % 2]
  {
    seq(2 * |mds|, k requires 0 <= k < 2 * |mds| => EntryCells(mds[k / 2])[k % 2])
  }

  function Counts(mds: seq<Entries>): (ns: seq<nat>)
    ensures |ns| == |mds| && forall i :: 0 <= i < |mds| ==> ns[i] == |mds[i]|
  {
    seq(|mds|, i requires 0 <= i < |mds| => |mds[i]|)
  }

  /** A metadata array with the structs of `mds` written. */
  function MetadataList(capacity: nat, mds: seq<Entries>): Object {
    MetadataObj(capacity, Counts(mds), MetadataCells(mds))
  }

  lemma MetadataNext(mds: seq<Entries>, i: nat)
    requires i < |mds|
    ensures MetadataCells(mds[..i + 1]) == MetadataCells(mds[..i]) + EntryCells(mds[i])
    ensures Counts(mds[..i + 1]) == Counts(mds[..i]) + [|mds[i]|]
  {
    forall k | 0 <= k < 2 * (i + 1)
      ensures MetadataCells(mds[..i + 1])[k] == (MetadataCells(mds[..i]) + EntryCells(mds[i]))[k]
    {
      if k < 2 * i {
        assert mds[..i + 1][k / 2] == mds[..i][k / 2];
      } else {
        assert k / 2 == i && k % 2 == k - 2 * i;
      }
    }
  }

  function Freed(cell: SlotObj): SlotObj {
    if cell.Is? then Gone else cell
  }

  /** The cells while the first `j` structs have been freed. */
  function CellsFreed(mds: seq<Entries>, j: nat): (cells: seq<SlotObj>)
    requires j <= |mds|
    ensures |cells| == 2 * |mds|
    ensures forall k :: 0 <= k < 2 * |mds| ==> cells[k] == if k < 2 * j then Freed(MetadataCells(mds)[k])
              else MetadataCells(mds)[k]
  {
    seq(2 * |mds|, k requires 0 <= k < 2 * |mds| => if k < 2 * j then Freed(MetadataCells(mds)[k])
        else MetadataCells(mds)[k])
  }

  /** Frees the string array in cell `k`, if there is one. */
  method FreeCell(h: Heap, md: Ptr, k: nat, count: nat, ghost capacity: nat, ghost counts: seq<nat>,
                  ghost cells: seq<SlotObj>, ghost names: seq<string>, ghost base: Blocks)
    requires h.Valid() && md in h.View() && md !in h.Temps() && md !in base && Apart(base, h.blocks)
    requires h.View()[md] == MetadataObj(capacity, counts, cells) && k < |cells|
    requires cells[k] == NullObj || (cells[k] == Is(StringList(names)) && count == |names|)
    modifies h
    ensures h.Valid() && h.Temps() == old(h.Temps()) && Apart(base, h.blocks)
    ensures h.View() == old(h.View())[md := MetadataObj(capacity, counts, cells[k := Freed(cells[k])])]
  {
    hide Forest, Held, StackBlocks, Apart, OwnsNothing, Home;
    h.HeldAreLive();
    ghost var view0 := h.View();
    var a := h.ReadCell(md, k);
    if a != NULL {
      a := TakeArray(h, md, k, base);
      assert names[..count] == names;
      TakeBack(h, a, count, names, view0[md := MetadataObj(capacity, counts, cells[k := Gone])], base);
    } else {
      assert cells[k := cells[k]] == cells;
      assert h.View() == view0[md := MetadataObj(capacity, counts, cells)];
    }
  }

  /** Takes over the array in cell `k`; like everything below a later block, it is not part of `base`. */
  method TakeArray(h: Heap, md: Ptr, k: nat, ghost base: Blocks) returns (a: Ptr)
    requires h.Valid() && md in h.View() && md !in h.Temps() && md !in base && Apart(base, h.blocks)
    requires h.View()[md].MetadataObj? && k < |h.View()[md].slots| && h.View()[md].slots[k].Is?
    modifies h
    ensures h.Valid() && h.Temps() == old(h.Temps()) && Apart(base, h.blocks)
    ensures a != NULL && a !in base && a !in old(h.View()) && a !in h.Temps()
    ensures var o := old(h.View())[md];
            h.View() == old(h.View())[md := MetadataObj(o.capacity, o.counts, o.slots[k := Gone])][a := o.slots[k].obj]
  {
    hide Forest, Held, StackBlocks;
    h.HeldAreLive();
    a := h.TakeCell(md, k);
    h.HeldAreLive();
  }

  lemma EntryAt(mds: seq<Entries>, j: nat)
    requires j < |mds|
    ensures |CellsFreed(mds, j)| == 2 * |mds|
    ensures CellsFreed(mds, j)[2 * j] == NullObj || CellsFreed(mds, j)[2 * j] == Is(StringList(Keys(mds[j])))
    ensures CellsFreed(mds, j)[2 * j + 1] == NullObj || CellsFreed(mds, j)[2 * j + 1] == Is(StringList(Values(mds[j])))
  {
    assert (2 * j) / 2 == j && (2 * j) % 2 == 0 && (2 * j + 1) / 2 == j && (2 * j + 1) % 2 == 1;
  }

  lemma FreedNext(mds: seq<Entries>, j: nat, cells: seq<SlotObj>)
    requires j < |mds| && cells == CellsFreed(mds, j)
    ensures cells[2 * j := Freed(cells[2 * j])][2 * j + 1 := Freed(cells[2 * j + 1])] == CellsFreed(mds, j + 1)
  {
    hide StringList, EntryCells, Keys, Values;
  }

  /** free_version_metadata: frees both arrays of struct `j`. */
  method FreeEntry(h: Heap, md: Ptr, j: nat, ghost capacity: nat, ghost mds: seq<Entries>, ghost base: Blocks)
    requires h.Valid() && md in h.View() && md !in h.Temps() && md !in base && Apart(base, h.blocks)
    requires j < |mds| && h.View()[md] == MetadataObj(capacity, Counts(mds), CellsFreed(mds, j))
    modifies h
    ensures h.Valid() && h.Temps() == old(h.Temps()) && Apart(base, h.blocks)
    ensures h.View() == old(h.View())[md := MetadataObj(capacity, Counts(mds), CellsFreed(mds, j + 1))]
  {
    hide Forest, Held, StackBlocks, Apart, CellsFreed, StringList, Freed, Keys, Values, Counts, MetadataCells,
        HomeOfObject, Home;
    h.HeldAreLive();
    EntryAt(mds, j);
    FreedNext(mds, j, CellsFreed(mds, j));
    var count := h.ReadCount(md, j);
    FreeCells(h, md, 2 * j, count, capacity, Counts(mds), CellsFreed(mds, j), Keys(mds[j]), Values(mds[j]), base);
  }

  /** Frees two neighbouring cells of a metadata array. */
  method FreeCells(h: Heap, md: Ptr, k: nat, count: nat, ghost capacity: nat, ghost counts: seq<nat>,
                   ghost cells: seq<SlotObj>, ghost keys: seq<string>, ghost values: seq<string>, ghost base: Blocks)
    requires h.Valid() && md in h.View() && md !in h.Temps() && md !in base && Apart(base, h.blocks)
    requires h.View()[md] == MetadataObj(capacity, counts, cells) && k + 1 < |cells|
    requires cells[k] == NullObj || (cells[k] == Is(StringList(keys)) && count == |keys|)
    requires cells[k + 1] == NullObj || (cells[k + 1] == Is(StringList(values)) && count == |values|)
    modifies h
    ensures h.Valid() && h.Temps() == old(h.Temps()) && Apart(base, h.blocks)
    ensures h.View() == old(h.View())[md := MetadataObj(capacity, counts,
                          cells[k := Freed(cells[k])][k + 1 := Freed(cells[k + 1])])]
  {
    hide Forest, Held, StackBlocks, Apart, StringList, Freed;
    FreeCell(h, md, k, count, capacity, counts, cells, keys, base);
    ghost var rest := cells[k := Freed(cells[k])];
    FreeCell(h, md, k + 1, count, capacity, counts, rest, values, base);
  }

  /** Frees the first structs of a metadata array and then the array itself. */
  method FreeMetadataArray(h: Heap, md: Ptr, count: nat, ghost capacity: nat, ghost mds: seq<Entries>,
                           ghost base: Blocks)
    requires h.Valid() && md in h.View() && md !in h.Temps() && md !in base && Apart(base, h.blocks)
    requires h.View()[md] == MetadataList(capacity, mds) && count == |mds|
    modifies h
    ensures h.Valid() && h.Temps() == old(h.Temps()) && Apart(base, h.blocks)
    ensures h.View() == old(h.View()) - {md}
  {
    hide Forest, Held, StackBlocks, Apart;
    ghost var view0 := h.View();
    var j := 0;
    assert CellsFreed(mds, 0) == MetadataCells(mds);
    while j < count
      invariant j <= count
      invariant h.Valid() && h.Temps() == old(h.Temps()) && Apart(base, h.blocks)
      invariant h.View() == view0[md := MetadataObj(capacity, Counts(mds), CellsFreed(mds, j))]
    {
      FreeEntry(h, md, j, capacity, mds, base);
      j := j + 1;
    }
    FreeArray(h, md, base);
  }

  /* ---------- lancedb_table_list_versions ---------- */

  type VersionRecord = (VersionInfo, Entries)

  /**
   The answers of malloc during one listing: the numbers of the calls that return NULL. Number 0 is the
   version array, 1 the metadata array, and 2i+2 and 2i+3 are the key and value arrays of version i.
   */
  type Refused = set<nat>

  predicate EntryGranted(es: Entries, refused: Refused, i: nat) {
    es == [] || (2 * i + 2 !in refused && 2 * i + 3 !in refused)
  }

  /** Every malloc the listing needs returns memory. */
  predicate ListingGranted(vs: seq<VersionRecord>, wantMetadata: bool, refused: Refused) {
    && 0 !in refused
    && (wantMetadata ==> 1 !in refused && forall i :: 0 <= i < |vs| ==> EntryGranted(vs[i].1, refused, i))
  }

  function Infos(vs: seq<VersionRecord>, done: nat): (cells: seq<Option<VersionInfo>>)
    ensures |cells| == |vs|
    ensures forall i :: 0 <= i < |vs| ==> cells[i] == if i < done then Some(vs[i].0) else None
  {
    seq(|vs|, i requires 0 <= i < |vs| => if i < done then Some(vs[i].0) else None)
  }

  function Metadata(vs: seq<VersionRecord>): (mds: seq<Entries>)
    ensures |mds| == |vs| && forall i :: 0 <= i < |vs| ==> mds[i] == vs[i].1
  {
    seq(|vs|, i requires 0 <= i < |vs| => vs[i].1)
  }

  /** The arrays while the first `done` versions have been written; `md` is NULL if metadata is not wanted. */
  ghost function Listed(view: map<Ptr, Object>, va: Ptr, md: Ptr, vs: seq<VersionRecord>, done: nat): map<Ptr, Object>
    requires done <= |vs|
  {
    var view' := view[va := LeafObj(VersionBuffer(Infos(vs, done)))];
    if md == NULL then view' else view'[md := MetadataList(|vs|, Metadata(vs)[..done])]
  }

  /** The two output arrays exist, are distinct and are newer than `base`. */
  ghost predicate Outputs(view: map<Ptr, Object>, va: Ptr, md: Ptr, base: Blocks) {
    && va != NULL && va != md && va !in view && md !in view && va !in base && md !in base
  }

  /** Writes version `i` into both arrays; false, with nothing of it left behind, if malloc fails. */
  method WriteVersion(h: Heap, va: Ptr, md: Ptr, ghost vs: seq<VersionRecord>, i: nat, ver: VersionRecord,
                      refused: Refused, ghost view0: map<Ptr, Object>, ghost base: Blocks) returns (ok: bool)
    requires i < |vs| && ver == vs[i] && Outputs(view0, va, md, base) && NULL !in base
    requires h.Ready() && Apart(base, h.blocks) && h.View() == Listed(view0, va, md, vs, i)
    modifies h
    ensures h.Ready() && Apart(base, h.blocks)
    ensures ok <==> md == NULL || EntryGranted(ver.1, refused, i)
    ensures ok ==> h.View() == Listed(view0, va, md, vs, i + 1)
    ensures !ok ==>
              && md != NULL
              && h.View() == view0[va := LeafObj(VersionBuffer(Infos(vs, i + 1)))]
                                  [md := MetadataList(|vs|, Metadata(vs)[..i])]
  {
    hide Forest, Held, StackBlocks, Apart, MetadataList;
    WriteInfo(h, va, md, vs, i, ver.0, view0, base);
    ok := true;
    if md != NULL {
      ok := WriteEntry(h, md, Metadata(vs), i, ver.1, refused, |vs|,
                       view0[va := LeafObj(VersionBuffer(Infos(vs, i + 1)))], base);
    }
  }

  lemma InfosNext(vs: seq<VersionRecord>, i: nat)
    requires i < |vs|
    ensures Infos(vs, i)[i := Some(vs[i].0)] == Infos(vs, i + 1)
  {
  }

  method WriteInfo(h: Heap, va: Ptr, ghost md: Ptr, ghost vs: seq<VersionRecord>, i: nat, info: VersionInfo,
                   ghost view0: map<Ptr, Object>, ghost base: Blocks)
    requires i < |vs| && info == vs[i].0 && Outputs(view0, va, md, base)
    requires h.Ready() && Apart(base, h.blocks) && h.View() == Listed(view0, va, md, vs, i)
    modifies h
    ensures h.Ready() && Apart(base, h.blocks)
    ensures var view' := view0[va := LeafObj(VersionBuffer(Infos(vs, i + 1)))];
            h.View() == if md == NULL then view' else view'[md := MetadataList(|vs|, Metadata(vs)[..i])]
  {
    hide Forest, Held, StackBlocks, MetadataList, Home, HomeOfObject, Apart, Infos;
    h.HeldAreLive();
    InfosNext(vs, i);
    var leaf := h.ReadLeaf(va);
    ghost var blocks := h.blocks;
    h.StoreLeaf(va, VersionBuffer(leaf.infos[i := Some(info)]));
    ApartWith(base, blocks, va, h.blocks[va]);
  }

  /** Fills struct `i` of a metadata array. */
  method WriteEntry(h: Heap, md: Ptr, ghost mds: seq<Entries>, i: nat, es: Entries, refused: Refused,
                    ghost capacity: nat, ghost view0: map<Ptr, Object>, ghost base: Blocks) returns (ok: bool)
    requires i < |mds| == capacity && es == mds[i] && md != NULL && md !in view0 && md !in base && NULL !in base
    requires h.Ready() && Apart(base, h.blocks) && h.View() == view0[md := MetadataList(capacity, mds[..i])]
    modifies h
    ensures h.Ready() && Apart(base, h.blocks)
    ensures h.View() == view0[md := MetadataList(capacity, mds[..if ok then i + 1 else i])]
    ensures ok <==> EntryGranted(es, refused, i)
  {
    hide Forest, Held, StackBlocks, Apart, StringList, Keys, Values, Home, HomeOfObject;
    MetadataNext(mds, i);
    h.HeldAreLive();
    if es == [] {
      AppendEntry(h, md, NULL, NULL, 0, base);
      return true;
    }
    var keys, values := MarshalPairs(h, es, (2 * i + 2 !in refused, 2 * i + 3 !in refused), base);
    if keys == NULL {
      return false;
    }
    AppendEntry(h, md, keys, values, |es|, base);
    ok := true;
  }

  method AppendEntry(h: Heap, md: Ptr, keys: Ptr, values: Ptr, count: nat, ghost base: Blocks)
    requires h.Valid() && md in h.View() && md !in h.Temps() && h.View()[md].MetadataObj? && md !in base
              && Apart(base, h.blocks)
    requires |h.View()[md].counts| < h.View()[md].capacity && keys !in base && values !in base
    requires keys == values == NULL || (keys != values && {keys, values} <= h.View().Keys - h.Temps() - {md})
    modifies h
    ensures h.Valid() && h.Temps() == old(h.Temps()) && Apart(base, h.blocks)
    ensures var o := old(h.View())[md];
            h.View() == (old(h.View()) - {keys, values})[md := MetadataObj(o.capacity, o.counts + [count],
              o.slots + [Cell(old(h.View()), keys), Cell(old(h.View()), values)])]
  {
    hide Forest, Held, StackBlocks;
    ghost var blocks := h.blocks;
    h.PushEntry(md, keys, values, count);
    ApartWith(base, blocks, md, h.blocks[md]);
  }

  /** The out-parameters of lancedb_table_list_versions; None where one was left alone. */
  datatype VersionsReply = VersionsReply(status: Status, versions: Option<Ptr>, metadata: Option<Ptr>,
                                         count: Option<nat>)

  method NewVersionArray(h: Heap, ghost vs: seq<VersionRecord>, count: nat, grant: bool, ghost base: Blocks)
    returns (va: Ptr)
    requires h.Ready() && h.blocks == base && count == |vs|
    modifies h
    ensures h.Ready() && (va != NULL <==> grant)
    ensures va == NULL ==> h.View() == old(h.View()) && h.blocks == base
    ensures va != NULL ==>
              && va !in old(h.View()) && va !in base && Apart(base, h.blocks) && h.blocks - {va} == base
              && h.View() == old(h.View())[va := LeafObj(VersionBuffer(Infos(vs, 0)))]
  {
    hide Forest, Held, StackBlocks;
    var empty := seq(count, i => None);
    assert empty == Infos(vs, 0);
    va := h.Malloc(Plain(VersionBuffer(empty)), grant);
  }

  method NewMetadataArray(h: Heap, count: nat, grant: bool, ghost base: Blocks) returns (md: Ptr)
    requires h.Ready() && Apart(base, h.blocks)
    modifies h
    ensures h.Ready() && Apart(base, h.blocks) && (md != NULL <==> grant)
    ensures md == NULL ==> h.View() == old(h.View()) && h.blocks == old(h.blocks)
    ensures md != NULL ==>
              && md !in old(h.View()) && md !in base
              && h.View() == old(h.View())[md := MetadataList(count, [])]
  {
    hide Forest, Held, StackBlocks;
    md := h.Malloc(MetadataArray(count, []), grant);
    assert MetadataCells([]) == [] && Counts([]) == [];
  }

  /** Frees the version array when the metadata array cannot be had. */
  method GiveBack(h: Heap, va: Ptr, ghost vs: seq<VersionRecord>, ghost view0: map<Ptr, Object>, ghost base: Blocks)
    requires h.Ready() && va !in view0 && h.blocks - {va} == base
    requires h.View() == view0[va := LeafObj(VersionBuffer(Infos(vs, 0)))]
    modifies h
    ensures h.Ready() && h.View() == view0 && h.blocks == base
  {
    hide Forest, Held, StackBlocks, Infos;
    h.Free(va);
    assert h.View() == view0;
  }

  /** The two output arrays, freshly malloc'ed, or nothing at all. */
  method NewOutputs(h: Heap, ghost vs: seq<VersionRecord>, count: nat, wantMetadata: bool, refused: Refused,
                    ghost base: Blocks)
    returns (va: Ptr, md: Ptr)
    requires h.Ready() && h.blocks == base && count == |vs|
    modifies h
    ensures h.Ready() && (va != NULL <==> 0 !in refused && (wantMetadata ==> 1 !in refused))
    ensures va == NULL ==> h.View() == old(h.View()) && h.blocks == base
    ensures va != NULL ==>
              && Outputs(old(h.View()), va, md, base) && (md != NULL <==> wantMetadata)
              && h.View() == Listed(old(h.View()), va, md, vs, 0) && Apart(base, h.blocks)
  {
    hide Forest, Held, StackBlocks, Apart, MetadataList, Home;
    ghost var view0 := h.View();
    h.HeldAreLive();
    NextIsFresh(h.blocks, h.next, h.owner, h.rank, h.obj);
    assert Metadata(vs)[..0] == [];
    va := NewVersionArray(h, vs, count, 0 !in refused, base);
    md := NULL;
    if va != NULL && wantMetadata {
      h.HeldAreLive();
      md := NewMetadataArray(h, count, 1 !in refused, base);
      if md == NULL {
        GiveBack(h, va, vs, view0, base);
        va := NULL;
      }
    }
  }

  /** How listing the versions ends, given what the library returned. */
  ghost predicate VersionsListed(view: map<Ptr, Object>, outcome: Result<seq<VersionRecord>, Failure>,
                                 wantMetadata: bool,
                                 refused: Refused, slot: bool, view': map<Ptr, Object>, reply: VersionsReply) {
    && (reply.status.code.Success? <==>
          outcome.Ok? && (outcome.value == [] || ListingGranted(outcome.value, wantMetadata, refused)))
    && if !reply.status.code.Success? then
      && reply.versions == reply.metadata == None && Ended(view, slot, reply.status, view')
      && match outcome
         case Err(f) => IsFailure(reply.status, f) && reply.count == None
         case Ok(vs) => IsUnknown(reply.status) && reply.count == Some(|vs|) && vs != []
    else
      && outcome.Ok? && reply.status == DONE && reply.count == Some(|outcome.value|)
      && reply.versions.Some? && (reply.metadata.Some? <==> wantMetadata)
      && var md := if wantMetadata then reply.metadata.value else NULL;
         if outcome.value == [] then reply.versions.value == md == NULL && view' == view
         else
           && NewHandles(view, reply.versions.value, md, wantMetadata)
           && view' == Listed(view, reply.versions.value, md, outcome.value, |outcome.value|)
  }

  ghost predicate NewHandles(view: map<Ptr, Object>, va: Ptr, md: Ptr, wantMetadata: bool) {
    va != NULL && va != md && va !in view && md !in view && (md != NULL <==> wantMetadata)
  }

  method ListVersions(h: Heap, outcome: Result<seq<VersionRecord>, Failure>, wantMetadata: bool, refused: Refused,
                      slot: bool)
    returns (reply: VersionsReply)
    requires h.Ready()
    modifies h
    ensures h.Ready() && VersionsListed(old(h.View()), outcome, wantMetadata, refused, slot, h.View(), reply)
    ensures reply.status.code.Success? ==>
              && Apart(old(h.blocks), h.blocks) && reply.versions.Some? && reply.versions.value !in old(h.blocks)
              && (reply.metadata.Some? ==> reply.metadata.value !in old(h.blocks))
    ensures !reply.status.code.Success? ==> RolledBack(old(h.blocks), h.blocks, reply.status.msg, reply.status.text)
  {
    hide Forest, Held, StackBlocks, Apart, Ended, RolledBack, Listed, IsFailure;
    ghost var base := h.blocks;
    NextIsFresh(h.blocks, h.next, h.owner, h.rank, h.obj);
    match outcome
    case Err(f) =>
      var status := HandleError(h, slot, f);
      reply := VersionsReply(status, None, None, None);
    case Ok(vs) =>
      if vs == [] {
        ApartFromItself(base);
        return VersionsReply(DONE, Some(NULL), if wantMetadata then Some(NULL) else None, Some(0));
      }
      var va, md := BuildVersions(h, vs, wantMetadata, refused);
      if va == NULL {
        var status := Fail(h, slot, ErrorCode.Unknown, UNKNOWN_ERROR);
        return VersionsReply(status, None, None, Some(|vs|));
      }
      reply := VersionsReply(DONE, Some(va), if wantMetadata then Some(md) else None, Some(|vs|));
  }

  /** Builds both arrays; when malloc fails at any point, everything built so far is released again. */
  method BuildVersions(h: Heap, vs: seq<VersionRecord>, wantMetadata: bool, refused: Refused) returns (va: Ptr, md: Ptr)
    requires h.Ready()
    modifies h
    ensures h.Ready() && (va != NULL <==> ListingGranted(vs, wantMetadata, refused))
    ensures va == NULL ==> h.View() == old(h.View()) && h.blocks == old(h.blocks)
    ensures va != NULL ==>
              && Outputs(old(h.View()), va, md, old(h.blocks)) && (md != NULL <==> wantMetadata)
              && h.View() == Listed(old(h.View()), va, md, vs, |vs|) && Apart(old(h.blocks), h.blocks)
  {
    hide Forest, Held, StackBlocks, Apart, MetadataList, OneOwner;
    ghost var base, owner0, view0 := h.blocks, h.owner, h.View();
    h.HeldAreLive();
    HereOwners(h);
    NextIsFresh(h.blocks, h.next, h.owner, h.rank, h.obj);
    va, md := NewOutputs(h, vs, |vs|, wantMetadata, refused, base);
    if va == NULL {
      return;
    }
    var i := 0;
    while i < |vs|
      invariant i <= |vs|
      invariant h.Ready() && Apart(base, h.blocks) && h.View() == Listed(view0, va, md, vs, i)
      invariant wantMetadata ==> forall k :: 0 <= k < i ==> EntryGranted(vs[k].1, refused, k)
    {
      var ok := WriteVersion(h, va, md, vs, i, vs[i], refused, view0, base);
      if !ok {
        Unbuild(h, va, md, vs, i, view0, base, owner0);
        return NULL, NULL;
      }
      i := i + 1;
    }
  }

  /** Releases what a failed listing built: the first `i` structs, the metadata array and the version array. */
  method Unbuild(h: Heap, va: Ptr, md: Ptr, ghost vs: seq<VersionRecord>, i: nat, ghost view0: map<Ptr, Object>,
                 ghost base: Blocks, ghost owner0: map<Ptr, Owner>)
    requires h.Ready() && Apart(base, h.blocks) && Outputs(view0, va, md, base) && md != NULL && i < |vs|
    requires h.View() == view0[va := LeafObj(VersionBuffer(Infos(vs, i + 1)))]
                                  [md := MetadataList(|vs|, Metadata(vs)[..i])]
    requires OneOwner(base, owner0) && forall p :: p in view0 ==> p in base
    modifies h
    ensures h.Ready() && h.View() == view0 && h.blocks == base
  {
    hide Forest, Held, StackBlocks, Apart, MetadataList, OneOwner;
    FreeMetadataArray(h, md, i, |vs|, Metadata(vs)[..i], base);
    FreeArray(h, va, base);
    assert h.View() == view0;
    RestoredHere(h, base, owner0);
  }

  /* ---------- releasing the result ---------- */

  /** lancedb_free_versions. */
  method FreeVersions(h: Heap, va: Ptr, ghost base: Blocks)
    requires h.Ready() && Apart(base, h.blocks) && va !in base
    requires va == NULL || (va in h.View() && h.View()[va].LeafObj? && h.View()[va].leaf.VersionBuffer?)
    modifies h
    ensures h.Ready() && Apart(base, h.blocks) && h.View() == old(h.View()) - {va}
  {
    hide Forest, Held, StackBlocks, Apart;
    h.HeldAreLive();
    if va != NULL {
      FreeArray(h, va, base);
    }
  }

  /** lancedb_free_version_metadata; the count must be the one that was returned. */
  method FreeVersionMetadata(h: Heap, md: Ptr, count: nat, ghost mds: seq<Entries>, ghost base: Blocks)
    requires h.Ready() && Apart(base, h.blocks) && md !in base
    requires md == NULL || (md in h.View() && h.View()[md] == MetadataList(|mds|, mds) && count == |mds|)
    modifies h
    ensures h.Ready() && Apart(base, h.blocks) && h.View() == old(h.View()) - {md}
  {
    hide Forest, Held, StackBlocks, Apart, MetadataList;
    h.HeldAreLive();
    if md != NULL {
      FreeMetadataArray(h, md, count, count, mds, base);
    }
  }

  /* ---------- reading the result back ---------- */

  /** Entries as they arrive in C: strings with a NUL byte have become empty. */
  function Cleaned(es: Entries): (r: Entries)
    ensures |r| == |es| && forall i :: 0 <= i < |es| ==> r[i] == (OrEmpty(es[i].0), OrEmpty(es[i].1))
  {
    seq(|es|, i requires 0 <= i < |es| => (OrEmpty(es[i].0), OrEmpty(es[i].1)))
  }

  /** How a C program reads two parallel arrays. */
  method ReadPairs(h: Heap, keys: Ptr, values: Ptr, count: nat, ghost es: Entries) returns (pairs: Entries)
    requires h.Valid() && keys in h.obj && values in h.obj && count == |es|
    requires h.obj[keys] == StringList(Keys(es)) && h.obj[values] == StringList(Values(es))
    ensures pairs == Cleaned(es)
  {
    hide Forest, Held, StackBlocks, StringList;
    var ks := ReadStrings(h, keys, count, Keys(es));
    var vs := ReadStrings(h, values, count, Values(es));
    pairs := seq(count, i requires 0 <= i < count => (ks[i], vs[i]));
  }

  /** How it reads struct `i` of a metadata array. */
  method ReadEntry(h: Heap, md: Ptr, i: nat, ghost capacity: nat, ghost mds: seq<Entries>) returns (pairs: Entries)
    requires h.Valid() && md in h.obj && h.obj[md] == MetadataList(capacity, mds) && i < |mds|
    ensures pairs == Cleaned(mds[i])
  {
    hide Forest, Held, StackBlocks, StringList, Keys, Values, Home, HomeOfObject;
    assert (2 * i) / 2 == i && (2 * i) % 2 == 0 && (2 * i + 1) / 2 == i && (2 * i + 1) % 2 == 1;
    assert MetadataCells(mds)[2 * i] == EntryCells(mds[i])[0] && MetadataCells(mds)[2 * i + 1] == EntryCells(mds[i])[1];
    var keys := h.ReadCell(md, 2 * i);
    if keys == NULL {
      return [];
    }
    var values := h.ReadCell(md, 2 * i + 1);
    var count := h.ReadCount(md, i);
    pairs := ReadPairs(h, keys, values, count, mds[i]);
  }

  /** What a complete listing of `vs` looks like to the program. */
  function ReadBack(vs: seq<VersionRecord>, wantMetadata: bool): (r: seq<VersionRecord>)
    ensures |r| == |vs|
    ensures forall i :: 0 <= i < |vs| ==> r[i] == (vs[i].0, if wantMetadata then Cleaned(vs[i].1) else [])
  {
    seq(|vs|, i requires 0 <= i < |vs| => (vs[i].0, if wantMetadata then Cleaned(vs[i].1) else []))
  }

  method ReadListing(h: Heap, va: Ptr, md: Ptr, count: nat, ghost vs: seq<VersionRecord>)
    returns (listed: seq<VersionRecord>)
    requires h.Valid() && va in h.obj && h.obj[va] == LeafObj(VersionBuffer(Infos(vs, |vs|))) && count == |vs|
    requires md != NULL ==> md in h.obj && h.obj[md] == MetadataList(|vs|, Metadata(vs))
    ensures listed == ReadBack(vs, md != NULL)
  {
    hide Forest, Held, StackBlocks, MetadataList, Home, HomeOfObject;
    var leaf := h.ReadLeaf(va);
    listed := [];
    var i := 0;
    while i < count
      invariant i <= count && listed == ReadBack(vs, md != NULL)[..i]
    {
      var pairs: Entries := [];
      if md != NULL {
        pairs := ReadEntry(h, md, i, |vs|, Metadata(vs));
      }
      listed := listed + [(leaf.infos[i].value, pairs)];
      i := i + 1;
    }
  }

  /**
   Listing the versions, reading both results and freeing them: the program sees every version with its
   entries in order exactly if malloc returns memory wherever it is needed, and every block is what it was.
   */
  method ListAndFree(h: Heap, vs: seq<VersionRecord>, wantMetadata: bool, refused: Refused)
    returns (listed: Option<seq<VersionRecord>>)
    requires h.Ready()
    modifies h
    ensures h.Ready() && h.View() == old(h.View()) && h.blocks == old(h.blocks)
    ensures listed == if vs == [] || ListingGranted(vs, wantMetadata, refused) then Some(ReadBack(vs, wantMetadata))
              else None
  {
    hide Forest, Held, StackBlocks, Apart, MetadataList, OneOwner, Home, HomeOfObject, ListingGranted;
    ghost var base, owner0, view0 := h.blocks, h.owner, h.View();
    h.HeldAreLive();
    HereOwners(h);
    NextIsFresh(h.blocks, h.next, h.owner, h.rank, h.obj);
    var reply := ListVersions(h, Ok(vs), wantMetadata, refused, false);
    if !reply.status.code.Success? {
      return None;
    }
    assert Metadata(vs)[..|vs|] == Metadata(vs);
    var va, md := reply.versions.value, if wantMetadata then reply.metadata.value else NULL;
    var all := [];
    if va != NULL {
      h.HeldAreLive();
      all := ReadListing(h, va, md, reply.count.value, vs);
    }
    FreeListing(h, va, md, reply.count.value, vs, view0, base, owner0);
    listed := Some(all);
  }

  /** Frees both results of a listing. */
  method FreeListing(h: Heap, va: Ptr, md: Ptr, count: nat, ghost vs: seq<VersionRecord>, ghost view0: map<Ptr, Object>,
                     ghost base: Blocks, ghost owner0: map<Ptr, Owner>)
    requires h.Ready() && Apart(base, h.blocks) && va !in base && md !in base && count == |vs|
    requires NULL !in view0 && OneOwner(base, owner0) && forall p :: p in view0 ==> p in base
    requires if vs == [] then va == md == NULL && h.View() == view0
             else Outputs(view0, va, md, base) && h.View() == Listed(view0, va, md, vs, |vs|)
    modifies h
    ensures h.Ready() && h.View() == view0 && h.blocks == base
  {
    hide Forest, Held, StackBlocks, Apart, MetadataList, OneOwner, Home, HomeOfObject;
    assert Metadata(vs)[..|vs|] == Metadata(vs);
    FreeVersionMetadata(h, md, count, Metadata(vs), base);
    FreeVersions(h, va, base);
    assert h.View() == view0;
    RestoredHere(h, base, owner0);
  }
}
