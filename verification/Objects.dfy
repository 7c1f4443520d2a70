/**
 What an allocation holds, and what it means.

 A block of memory is a tag with slots; a slot points to another block or is empty. The meaning of a
 block is an `Object`: a plain value that mentions no address, so it can be compared before and after
 a call without following pointers.
 */
module Objects {
  import opened Basics
  import opened Exprs

  newtype Ptr = x: int | 0 <= x
  const NULL: Ptr := 0

  type TableId = nat
  type Vector = seq<real>
  type Row = map<string, Scalar>

  /** Row counts fit an Arrow length, which is a signed 64-bit number. */
  type Rows = rows: seq<Row> | |rows| <= I64_MAX witness []

  /** A record batch: its rows (the Arrow buffers behind it are one block). */
  datatype Batch = Batch(rows: Rows)

  /** The column names a batch mentions. */
  function Columns(b: Batch): set<string> {
    set i, c | 0 <= i < |b.rows| && c in b.rows[i] :: c
  }

  datatype VersionInfo = VersionInfo(version: nat, seconds: i64, nanos: nat)

  datatype DistanceType = L2 | Cosine | Dot | Hamming

  /** The fields of LanceDBQuery and LanceDBVectorQuery other than the DataFusion filter. */
  datatype QueryFields = QueryFields(
    table: TableId,
    vector: Option<Vector>,
    column: Option<string>,
    limit: Option<nat>,
    offset: Option<nat>,
    select: Option<seq<string>>,
    filter: Option<string>,
    distanceType: Option<DistanceType>,
    nprobes: Option<nat>,
    refineFactor: Option<nat>,
    ef: Option<nat>)

  /** Contents of a block that owns no other block. */
  datatype Leaf =
    | CStr(text: string)
    | Table(id: TableId)
    | Connection(id: nat)
    | QueryResult(stream: Result<seq<Batch>, string>)
    | ConnectBuilder(uri: string, options: seq<(string, string)>, session: Option<Providers>)
    | Session(providers: Providers)
    | Registry(providers: Providers)
    | Provider(inner: Option<nat>)
    | TableNamesBuilder(connection: nat, limit: Option<nat>, startAfter: Option<string>)
    | Schema(columns: set<string>)
    | Buffers(batch: Batch)
    | VersionBuffer(infos: seq<Option<VersionInfo>>)
    | BoolBuffer(cells: seq<Option<bool>>)

  /** Object store providers by URL scheme. */
  type Providers = map<string, nat>

  /** A node of an expression tree without its children. */
  datatype Shape =
    | ColumnShape(name: string)
    | LiteralShape(value: Scalar)
    | BinaryShape(op: BinaryOp)
    | NotShape
    | IsNullShape
    | IsNotNullShape
    | InListShape(negated: bool)
    | CallShape(fn: Fn)
    | CastShape

  /**
   The contents of a block besides its slots. `PtrArray` is a C array of pointers; `MetadataArray` is
   an array of { keys, values, count } structs whose pointers are slots 2i and 2i+1. Both remember
   their capacity, and only the slots written so far exist: a read past them is an uninitialised read.
   */
  datatype Tag =
    | Node(shape: Shape)
    | Query(fields: QueryFields)
    | ArrowArray(length: i64)
    | BatchReader
    | PtrArray(capacity: nat)
    | MetadataArray(capacity: nat, counts: seq<nat>)
    | Plain(leaf: Leaf)

  /** Where a value lives, which decides how it must be released. */
  datatype Place = InBox | InCString | InMalloc | OnStack

  function HomeOfLeaf(leaf: Leaf): Place {
    match leaf
    case CStr(_) => InCString
    case VersionBuffer(_) => InMalloc
    case BoolBuffer(_) => InMalloc
    case _ => InBox
  }

  function Home(tag: Tag): Place {
    match tag
    case PtrArray(_) => InMalloc
    case MetadataArray(_, _) => InMalloc
    case Plain(leaf) => HomeOfLeaf(leaf)
    case _ => InBox
  }

  /** A pointer cell: NULL, an owning pointer, or one whose target has been moved out or released. */
  datatype Slot = Null | Own(p: Ptr) | Moved

  datatype SlotObj = NullObj | Is(obj: Object) | Gone

  datatype Object =
    | Junk
    | ExprObj(expr: Expr)
    | QueryObj(fields: QueryFields, dfFilter: Option<Expr>)
    | ArrowObj(length: i64, batch: Batch)
    | ReaderObj(batch: Batch)
    | ArrayObj(capacity: nat, slots: seq<SlotObj>)
    | MetadataObj(capacity: nat, counts: seq<nat>, slots: seq<SlotObj>)
    | LeafObj(leaf: Leaf)

  function HomeOfObject(o: Object): Place {
    match o
    case ArrayObj(_, _) => InMalloc
    case MetadataObj(_, _, _) => InMalloc
    case LeafObj(leaf) => HomeOfLeaf(leaf)
    case _ => InBox
  }

  predicate AllExprs(slots: seq<SlotObj>) {
    forall i :: 0 <= i < |slots| ==> slots[i].Is? && slots[i].obj.ExprObj?
  }

  function ExprsOf(slots: seq<SlotObj>): (es: seq<Expr>)
    requires AllExprs(slots)
    ensures |es| == |slots| && forall i :: 0 <= i < |es| ==> slots[i] == Is(ExprObj(es[i]))
  {
    seq(|slots|, i requires 0 <= i < |slots| => slots[i].obj.expr)
  }

  /** The expression a node denotes, given what its children denote. */
  function Assemble(shape: Shape, es: seq<Expr>): Option<Expr> {
    match shape
    case ColumnShape(name) => if es == [] then Some(Column(name)) else None
    case LiteralShape(v) => if es == [] then Some(Literal(v)) else None
    case BinaryShape(op) => if |es| == 2 then Some(Binary(es[0], op, es[1])) else None
    case NotShape => if |es| == 1 then Some(Not(es[0])) else None
    case IsNullShape => if |es| == 1 then Some(IsNull(es[0])) else None
    case IsNotNullShape => if |es| == 1 then Some(IsNotNull(es[0])) else None
    case InListShape(negated) => if |es| >= 1 then Some(InList(es[0], es[1..], negated)) else None
    case CallShape(fn) => Some(Call(fn, es))
    case CastShape => if |es| == 1 then Some(CastUtf8(es[0])) else None
  }

  function Meaning(tag: Tag, slots: seq<SlotObj>): Object {
    match tag
    case Node(shape) =>
      if AllExprs(slots) && Assemble(shape, ExprsOf(slots)).Some?
      then ExprObj(Assemble(shape, ExprsOf(slots)).value) else Junk
    case Query(fields) =>
      if slots == [] then QueryObj(fields, None)
      else if |slots| == 1 && AllExprs(slots) then QueryObj(fields, Some(slots[0].obj.expr)) else Junk
    case ArrowArray(length) =>
      if |slots| == 1 && slots[0].Is? && slots[0].obj.LeafObj? && slots[0].obj.leaf.Buffers?
      then ArrowObj(length, slots[0].obj.leaf.batch) else Junk
    case BatchReader =>
      if |slots| == 1 && slots[0].Is? && slots[0].obj.LeafObj? && slots[0].obj.leaf.Buffers?
      then ReaderObj(slots[0].obj.leaf.batch) else Junk
    case PtrArray(capacity) => if |slots| <= capacity then ArrayObj(capacity, slots) else Junk
    case MetadataArray(capacity, counts) =>
      if |counts| <= capacity && |slots| == 2 * |counts| then MetadataObj(capacity, counts, slots) else Junk
    case Plain(leaf) => if slots == [] then LeafObj(leaf) else Junk
  }

  lemma Undone(view: map<Ptr, Object>, p: Ptr, o: Object)
    requires p !in view
    ensures view[p := o] - {p} == view
  {
  }

  lemma SlotAdded(tag: Tag, slots: seq<SlotObj>, s: SlotObj)
    requires Meaning(tag, slots).ArrayObj? && |Meaning(tag, slots).slots| < Meaning(tag, slots).capacity
    ensures Meaning(tag, slots).slots == slots
    ensures Meaning(tag, slots + [s]) == ArrayObj(Meaning(tag, slots).capacity, slots + [s])
  {
  }

  lemma FieldsReplaced(tag: Tag, slots: seq<SlotObj>, fields: QueryFields)
    requires Meaning(tag, slots).QueryObj?
    ensures Meaning(Query(fields), slots) == QueryObj(fields, Meaning(tag, slots).dfFilter)
    ensures Home(Query(fields)) == HomeOfObject(Meaning(tag, slots))
  {
  }

  lemma FilterGone(tag: Tag, slots: seq<SlotObj>)
    requires Meaning(tag, slots).QueryObj? && Meaning(tag, slots).dfFilter.Some?
    ensures |slots| == 1 && slots[0].Is? && slots[0].obj == ExprObj(Meaning(tag, slots).dfFilter.value)
    ensures Meaning(tag, []) == QueryObj(Meaning(tag, slots).fields, None)
  {
  }

  lemma SlotGone(tag: Tag, slots: seq<SlotObj>, i: nat)
    requires Meaning(tag, slots).ArrayObj? || Meaning(tag, slots).MetadataObj?
    requires i < |Meaning(tag, slots).slots|
    ensures Meaning(tag, slots).slots == slots
    ensures Meaning(tag, slots[i := Gone]) == Meaning(tag, slots).(slots := slots[i := Gone])
  {
  }

  lemma HomeAgrees(tag: Tag, slots: seq<SlotObj>)
    requires Meaning(tag, slots) != Junk
    ensures HomeOfObject(Meaning(tag, slots)) == Home(tag)
  {
  }

  /** Everything a boxed value points to is boxed as well. */
  lemma BoxesOwnBoxes(tag: Tag, slots: seq<SlotObj>)
    requires Meaning(tag, slots) != Junk && Home(tag) == InBox
    ensures forall i :: 0 <= i < |slots| ==> slots[i].Is? && HomeOfObject(slots[i].obj) == InBox
  {
  }

  lemma LeavesHaveHomes(leaf: Leaf)
    ensures HomeOfLeaf(leaf) != OnStack
  {
  }

  /** No cell of the object owns another block. */
  predicate OwnsNothing(o: Object) {
    match o
    case LeafObj(_) => true
    case ArrayObj(_, slots) => forall i :: 0 <= i < |slots| ==> !slots[i].Is?
    case MetadataObj(_, _, slots) => forall i :: 0 <= i < |slots| ==> !slots[i].Is?
    case _ => false
  }
}
