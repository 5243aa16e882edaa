/** The records the BUFR query code passes around: query components and
    queries, the targets a query set resolves to in one subset, the data
    fields and frames a result set collects, and small stand-ins for the
    vector helpers of VectorMath.h, which is not part of this model. Data
    values are only ever copied, so a value is either a number or a text. */
module QueryTypes {
  import opened Wrappers

  // ---------------------------------------------------------------------------
  // Values

  /** One element of a data vector: a number or a (long) string. */
  datatype Value = Number(x: real) | Text(s: string)

  /** The missing-value marker of Constants.h, `10.0e10`, which is also the
      literal `getRowsForField` fills its buffer with. */
  const MissingNumber: real := 100000000000.0
  const MissingValue: Value := Number(MissingNumber)

  // ---------------------------------------------------------------------------
  // Vector helpers (stand-ins for VectorMath.h)

  /** `product` of a range of dimension sizes; the empty product is 1. */
  function Product(s: seq<nat>): nat {
    if s == [] then 1 else s[0] * Product(s[1..])
  }

  /** `sum` of counts, added up from the front. */
  function Sum(s: seq<nat>): nat {
    if s == [] then 0 else Sum(s[..|s| - 1]) + s[|s| - 1]
  }

  /** `max` of a non-empty vector of counts. */
  function MaxOf(s: seq<nat>): (m: nat)
    requires |s| >= 1
    ensures forall i :: 0 <= i < |s| ==> s[i] <= m
    ensures exists i :: 0 <= i < |s| && s[i] == m
  {
    if |s| == 1 then s[0]
    else
      var rest := MaxOf(s[1..]);
      assert forall i :: 1 <= i < |s| ==> s[i] == s[1..][i - 1];
      if s[0] >= rest then s[0] else rest
  }

  function MaxNat(a: nat, b: nat): nat {
    if a >= b then a else b
  }

  /** A product splits over a concatenation. */
  lemma {:induction false} ProductConcat(a: seq<nat>, b: seq<nat>)
    ensures Product(a + b) == Product(a) * Product(b)
  {
    if a != [] {
      assert (a + b)[1..] == a[1..] + b;
      ProductConcat(a[1..], b);
      assert (a + b)[0] == a[0];
      assert Product(a + b) == a[0] * Product(a[1..] + b);
      Associative(a[0], Product(a[1..]), Product(b));
    } else {
      assert a + b == b;
    }
  }

  lemma Associative(x: int, y: int, z: int)
    ensures x * (y * z) == (x * y) * z
  {
  }

  /** A product of sizes that are all at least 1 is at least 1. */
  lemma {:induction false} ProductPositive(s: seq<nat>)
    requires forall i :: 0 <= i < |s| ==> s[i] >= 1
    ensures Product(s) >= 1
  {
    if s != [] {
      ProductPositive(s[1..]);
    }
  }

  /** `dims.begin() + r` to `dims.end()`: the product of a suffix is the
      first size times the product of the rest. */
  lemma ProductSuffix(dims: seq<nat>, r: nat)
    requires r < |dims|
    ensures Product(dims[r..]) == dims[r] * Product(dims[r + 1..])
  {
    assert dims[r..][1..] == dims[r + 1..];
  }

  // ---------------------------------------------------------------------------
  // Queries

  /** One component of a query path (or the subset component heading it):
      the mnemonic, its index, the 1-based repeat indices it keeps (empty for
      no filter), and whether a subset component matches every subset. */
  datatype QueryComponent = QueryComponent(name: string, index: nat, filter: seq<nat>, isAnySubset: bool)

  /** A query: the subset it applies to, the path below it, and its text. */
  datatype Query = Query(subset: QueryComponent, path: seq<QueryComponent>, text: string)

  /** The subset of a message and which of its variants it is. */
  datatype SubsetVariant = SubsetVariant(subset: string, variantId: nat)

  /** The node types of the subset table, copied into targets unread. The
      first node of every target path is the subset itself. */
  datatype NodeType = SubsetType | TableType(code: nat)

  /** What a target knows about its element type; the scale, reference and
      bit width are not read by the modelled code. */
  datatype TypeInfo = TypeInfo(unit: string, isLongString: bool)

  const DefaultTypeInfo := TypeInfo("", false)

  /** One step of a target's path through the subset table. */
  datatype TargetComponent = TargetComponent(
    queryComponent: QueryComponent,
    nodeId: nat,
    parentNodeId: nat,
    parentDimensionNodeId: nat,
    nodeType: NodeType,
    fixedRepeatCount: nat)

  /** What `Target::setPath` derives from a path: the positions of the
      repeated components, the dimension path texts and the exported
      dimension indices. Target.h is not part of this model, so the
      derivation is a parameter of the operations that call it. */
  datatype PathLayout = PathLayout(seqPath: seq<nat>, dimPaths: seq<string>, exportDimIdxs: seq<int>)

  /** A resolved query in one subset. `nodeIdx == 0` marks a target whose
      query matched no node of the subset. */
  datatype Target = Target(
    name: string,
    queryStr: string,
    nodeIdx: nat,
    path: seq<TargetComponent>,
    typeInfo: TypeInfo,
    longStrId: string,
    seqPath: seq<nat>,
    dimPaths: seq<string>,
    exportDimIdxs: seq<int>)

  /** The text of a default-constructed query, used as the one dimension path
      of an empty target. */
  const DefaultQueryText := ""

  /** A default-constructed target. */
  const DefaultTarget := Target("", "", 0, [], DefaultTypeInfo, "", [], [], [])

  // ---------------------------------------------------------------------------
  // Result frames

  /** The values collected for one target in one subset, with the repeat
      counts of each level of its path (level 0 is the subset itself). */
  datatype DataField = DataField(target: Target, data: seq<Value>, seqCounts: seq<seq<nat>>, missing: bool)

  const DefaultField := DataField(DefaultTarget, [], [], false)

  /** The fields of one subset, one per query name. */
  datatype DataFrame = DataFrame(fields: seq<DataField>)

  /** The field accessors the result set reads go through the field's
      target. */
  function FieldName(f: DataField): string {
    f.target.name
  }

  function FieldUnit(f: DataField): string {
    f.target.typeInfo.unit
  }

  function FieldDimPaths(f: DataField): seq<string> {
    f.target.dimPaths
  }

  function FieldExportDims(f: DataField): seq<int> {
    f.target.exportDimIdxs
  }

  /** `DataFrame::fieldIndexForNodeNamed`: the first field of that name. */
  function FieldIndex(frame: DataFrame, name: string): (r: Option<nat>)
    ensures r.Some? ==> r.value < |frame.fields| && FieldName(frame.fields[r.value]) == name
    ensures r.Some? ==> forall i :: 0 <= i < r.value ==> FieldName(frame.fields[i]) != name
    ensures r.None? ==> forall i :: 0 <= i < |frame.fields| ==> FieldName(frame.fields[i]) != name
  {
    FieldIndexFrom(frame.fields, name, 0)
  }

  function FieldIndexFrom(fields: seq<DataField>, name: string, from: nat): (r: Option<nat>)
    requires from <= |fields|
    ensures r.Some? ==> from <= r.value < |fields| && FieldName(fields[r.value]) == name
    ensures r.Some? ==> forall i :: from <= i < r.value ==> FieldName(fields[i]) != name
    ensures r.None? ==> forall i :: from <= i < |fields| ==> FieldName(fields[i]) != name
    decreases |fields| - from
  {
    if from == |fields| then None
    else if FieldName(fields[from]) == name then Some(from)
    else FieldIndexFrom(fields, name, from + 1)
  }
}
