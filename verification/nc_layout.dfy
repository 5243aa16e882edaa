/** `create_nc_datasets` of bufr2nc.py: the netCDF dimensions and variables
    a descriptor asks for, as a plan of `createDimension` and
    `createVariable` calls rather than calls into the netCDF library. */
module NcLayout {
  import opened Wrappers
  import opened ObsSchema

  /** The netCDF type codes the script passes to `createVariable`. */
  datatype NcType = S1 | I4 | U4 | F4 | F8

  datatype NcDimension = NcDimension(name: string, size: int)

  datatype NcVariable = NcVariable(name: string, vtype: NcType, dimNames: seq<string>, chunkSizes: seq<int>)

  /** The calls in order: every dimension first, then every variable. */
  datatype NcSchema = NcSchema(dims: seq<NcDimension>, vars: seq<NcVariable>)

  /** The storage type of a table data type. */
  function StorageType(t: DataType): (v: NcType)
    ensures DataTypeOf(v) == t
  {
    match t
    case String => S1
    case Integer => I4
    case UInt => U4
    case Float => F4
    case Double => F8
  }

  /** Reading a netCDF type code back as a table data type. */
  function DataTypeOf(v: NcType): DataType {
    match v
    case S1 => String
    case I4 => Integer
    case U4 => UInt
    case F4 => Float
    case F8 => Double
  }

  /** Chunking: a one-dimensional variable is one chunk; any other variable
      is chunked one observation (its first dimension) at a time. */
  function ChunkSizes(sizes: seq<int>): (r: seq<int>)
    ensures |sizes| == 1 ==> r == sizes
    ensures |sizes| != 1 ==> |r| == if |sizes| == 0 then 1 else |sizes|
    ensures |sizes| != 1 ==> r[0] == 1 && r[1..] == if |sizes| == 0 then [] else sizes[1..]
  {
    if |sizes| == 1 then sizes else [1] + (if |sizes| == 0 then [] else sizes[1..])
  }

  function VariableOf(v: VarSpec): NcVariable {
    NcVariable(v.ncName, StorageType(v.dtype), v.dimNames, ChunkSizes(v.dimSizes))
  }

  /** The specs in creation order: the coordinate variables, then the
      header, observation, event, replication and sequence groups. */
  function AllSpecs(d: Descriptor): seq<VarSpec> {
    d.dimSpec + d.hdrSpec + d.intSpec + d.evnSpec + d.repSpec + d.seqSpec
  }

  /** `create_nc_datasets`. A coordinate entry with no size is an IndexError
      in the source; `init_dim_spec` never writes one. */
  function CreateNcDatasets(d: Descriptor): (r: NcSchema)
    requires forall v :: v in d.dimSpec ==> |v.dimSizes| >= 1
    ensures |r.dims| == |d.dimSpec|
    ensures forall i :: 0 <= i < |d.dimSpec| ==>
              r.dims[i] == NcDimension(d.dimSpec[i].ncName, d.dimSpec[i].dimSizes[0])
    ensures |r.vars| == |AllSpecs(d)|
    ensures forall i :: 0 <= i < |r.vars| ==>
              && r.vars[i].name == AllSpecs(d)[i].ncName
              && DataTypeOf(r.vars[i].vtype) == AllSpecs(d)[i].dtype
              && r.vars[i].dimNames == AllSpecs(d)[i].dimNames
              && r.vars[i].chunkSizes == ChunkSizes(AllSpecs(d)[i].dimSizes)
  {
    var specs := AllSpecs(d);
    NcSchema(
      seq(|d.dimSpec|, i requires 0 <= i < |d.dimSpec| =>
        assert d.dimSpec[i] in d.dimSpec;
        NcDimension(d.dimSpec[i].ncName, d.dimSpec[i].dimSizes[0])),
      seq(|specs|, i requires 0 <= i < |specs| => VariableOf(specs[i])))
  }

  // ---------------------------------------------------------------------------
  // Properties

  /** Every table data type has its own storage code, and reading the code
      back gives the data type. */
  lemma StorageTypeRoundTrip(t: DataType, u: DataType)
    ensures DataTypeOf(StorageType(t)) == t
    ensures StorageType(t) == StorageType(u) <==> t == u
  {
  }

  /** With positive sizes, every chunk size is positive and at most the size
      of its dimension, and a multi-dimensional chunk spans whole records. */
  lemma ChunkSizesFit(sizes: seq<int>)
    requires |sizes| >= 1
    requires forall k :: 0 <= k < |sizes| ==> sizes[k] >= 1
    ensures |ChunkSizes(sizes)| == |sizes|
    ensures forall k :: 0 <= k < |sizes| ==> 1 <= ChunkSizes(sizes)[k] <= sizes[k]
    ensures forall k :: 1 <= k < |sizes| ==> ChunkSizes(sizes)[k] == sizes[k]
  {
    var r := ChunkSizes(sizes);
    if |sizes| != 1 {
      assert forall k :: 1 <= k < |sizes| ==> r[k] == r[1..][k - 1] == sizes[1..][k - 1];
    }
  }

  /** What the netCDF library needs of the plan: dimension names are
      distinct, and every dimension a variable names is declared, with a
      chunk size between 1 and the declared size. */
  predicate WellFormed(s: NcSchema) {
    && (forall i, j :: 0 <= i < j < |s.dims| ==> s.dims[i].name != s.dims[j].name)
    && forall i :: 0 <= i < |s.vars| ==>
         && |s.vars[i].chunkSizes| == |s.vars[i].dimNames|
         && forall k :: 0 <= k < |s.vars[i].dimNames| ==>
              exists j :: 0 <= j < |s.dims| && s.dims[j].name == s.vars[i].dimNames[k]
                && 1 <= s.vars[i].chunkSizes[k] <= s.dims[j].size
  }

  /** The descriptor facts the plan's well-formedness rests on. */
  predicate ReadyToCreate(d: Descriptor) {
    && SizesAgree(d)
    && d.nobs >= 1
    && (forall v :: v in d.dimSpec ==> v.dimNames == [v.ncName])
    && (forall v :: v in AllSpecs(d) ==> |v.dimNames| >= 1)
    && (forall i, j :: 0 <= i < j < |d.dimSpec| ==> d.dimSpec[i].ncName != d.dimSpec[j].ncName)
    && forall v, n :: v in AllSpecs(d) && n in v.dimNames ==> exists e :: e in d.dimSpec && e.ncName == n
  }

  lemma DimensionSizesPositive(name: string, nobs: int)
    requires nobs >= 1 && DimSize(name, nobs).Some?
    ensures DimSize(name, nobs).value >= 1
  {
  }

  /** A descriptor ready to create yields a well-formed plan. */
  lemma CreateNcDatasetsWellFormed(d: Descriptor)
    requires ReadyToCreate(d)
    ensures forall v :: v in d.dimSpec ==> |v.dimSizes| >= 1
    ensures WellFormed(CreateNcDatasets(d))
  {
    assert forall v :: v in d.dimSpec ==> v in AllGroups(d)[5];
    var s := CreateNcDatasets(d);
    forall i | 0 <= i < |s.vars|
      ensures |s.vars[i].chunkSizes| == |s.vars[i].dimNames|
      ensures forall k :: 0 <= k < |s.vars[i].dimNames| ==>
                exists j :: 0 <= j < |s.dims| && s.dims[j].name == s.vars[i].dimNames[k]
                  && 1 <= s.vars[i].chunkSizes[k] <= s.dims[j].size
    {
      PlanVarFits(d, i);
    }
  }

  /** Variable `i` of the plan has one chunk size per dimension, and each
      of its dimensions is declared with a size its chunk fits in. */
  lemma PlanVarFits(d: Descriptor, i: nat)
    requires ReadyToCreate(d) && (forall v :: v in d.dimSpec ==> |v.dimSizes| >= 1) && i < |AllSpecs(d)|
    ensures var s := CreateNcDatasets(d);
      && |s.vars[i].chunkSizes| == |s.vars[i].dimNames|
      && forall k :: 0 <= k < |s.vars[i].dimNames| ==>
           exists j :: 0 <= j < |s.dims| && s.dims[j].name == s.vars[i].dimNames[k]
             && 1 <= s.vars[i].chunkSizes[k] <= s.dims[j].size
  {
    var s := CreateNcDatasets(d);
    var v := AllSpecs(d)[i];
    assert v in AllSpecs(d);
    assert SpecAgrees(d, v) by { SpecsAgree(d, v); }
    forall k | 0 <= k < |v.dimSizes| ensures v.dimSizes[k] >= 1 {
      DimensionSizesPositive(v.dimNames[k], d.nobs);
    }
    ChunkSizesFit(v.dimSizes);
    forall k | 0 <= k < |v.dimNames|
      ensures exists j :: 0 <= j < |s.dims| && s.dims[j].name == v.dimNames[k]
                && 1 <= s.vars[i].chunkSizes[k] <= s.dims[j].size
    {
      var n := v.dimNames[k];
      assert n in v.dimNames;
      var e :| e in d.dimSpec && e.ncName == n;
      var j :| 0 <= j < |d.dimSpec| && d.dimSpec[j] == e;
      assert SpecAgrees(d, e) by { SpecsAgree(d, e); }
      assert e.dimNames[0] == n;
      assert s.dims[j] == NcDimension(n, e.dimSizes[0]);
    }
  }

  /** `v`'s sizes are what the dimension table gives its names. */
  predicate SpecAgrees(d: Descriptor, v: VarSpec) {
    && WellShaped(v)
    && forall k :: 0 <= k < |v.dimNames| ==> DimSize(v.dimNames[k], d.nobs) == Some(v.dimSizes[k])
  }

  lemma SpecsAgree(d: Descriptor, v: VarSpec)
    requires SizesAgree(d) && (v in AllSpecs(d) || v in d.dimSpec)
    ensures SpecAgrees(d, v)
  {
    assert v in d.dimSpec || v in d.hdrSpec || v in d.intSpec || v in d.evnSpec || v in d.repSpec || v in d.seqSpec;
    var groups := AllGroups(d);
    if v in d.dimSpec { assert groups[5] in groups; }
    else if v in d.hdrSpec { assert groups[0] in groups; }
    else if v in d.intSpec { assert groups[1] in groups; }
    else if v in d.evnSpec { assert groups[2] in groups; }
    else if v in d.repSpec { assert groups[3] in groups; }
    else { assert groups[4] in groups; }
  }

  /** What construction guarantees of a descriptor, whatever its count. */
  ghost predicate Constructed(d: Descriptor) {
    && SizesAgree(d)
    && (forall v :: v in d.dimSpec ==> v.dimNames == [v.ncName])
    && (forall v :: v in AllSpecs(d) ==> |v.dimNames| >= 1)
    && (forall i, j :: 0 <= i < j < |d.dimSpec| ==> d.dimSpec[i].ncName != d.dimSpec[j].ncName)
    && forall n :: n in UsedDimNames(d) ==> exists e :: e in d.dimSpec && e.ncName == n
  }

  /** What `NewObsType` builds is constructed in the sense above. */
  lemma NewObsTypeConstructed(kind: ObsKind, ftype: FileType)
    requires NewObsType(kind, ftype).Ok?
    ensures Constructed(NewObsType(kind, ftype).value)
  {
    NewObsTypeSizesAgree(kind, ftype);
    ConstructedHasDims(kind, ftype);
    DimSpecCovers(Blank(kind, ftype), NewObsType(kind, ftype).value);
  }

  /** The coordinate entries `init_dim_spec` adds name one dimension each,
      once, and cover every dimension the variables use. */
  lemma DimSpecCovers(b: Descriptor, d: Descriptor)
    requires InitDimSpec(b).Ok? && d == b.(dimSpec := InitDimSpec(b).value)
    ensures forall v :: v in d.dimSpec ==> v.dimNames == [v.ncName]
    ensures forall i, j :: 0 <= i < j < |d.dimSpec| ==> d.dimSpec[i].ncName != d.dimSpec[j].ncName
    ensures forall n :: n in UsedDimNames(d) ==> exists e :: e in d.dimSpec && e.ncName == n
  {
    assert VarGroups(d) == VarGroups(b);
    assert UsedDimNames(d) == UsedDimNames(b);
  }

  /** Every observation type the script can construct, once its count is set
      to a positive number, yields a well-formed plan. */
  lemma ConstructedSchemaWellFormed(kind: ObsKind, ftype: FileType, nobs: int)
    requires NewObsType(kind, ftype).Ok? && nobs >= 1
    ensures AllWellShaped(NewObsType(kind, ftype).value)
    ensures ReadyToCreate(SetNobs(NewObsType(kind, ftype).value, nobs))
    ensures WellFormed(CreateNcDatasets(SetNobs(NewObsType(kind, ftype).value, nobs)))
  {
    var d0 := NewObsType(kind, ftype).value;
    NewObsTypeConstructed(kind, ftype);
    SetNobsReady(d0, nobs);
    CreateNcDatasetsWellFormed(SetNobs(d0, nobs));
  }

  /** `set_nobs` with a positive count makes a constructed descriptor ready
      to create. */
  lemma SetNobsReady(d0: Descriptor, nobs: int)
    requires Constructed(d0) && nobs >= 1
    ensures AllWellShaped(d0)
    ensures ReadyToCreate(SetNobs(d0, nobs))
  {
    SetNobsKeepsSizesAgreeing(d0, nobs);
    SetNobsDimSpec(d0, nobs);
    SetNobsCovers(d0, nobs);
  }

  lemma SetNobsDimSpec(d0: Descriptor, nobs: int)
    requires Constructed(d0) && AllWellShaped(d0)
    ensures var d1 := SetNobs(d0, nobs);
      && (forall v :: v in d1.dimSpec ==> v.dimNames == [v.ncName])
      && (forall i, j :: 0 <= i < j < |d1.dimSpec| ==> d1.dimSpec[i].ncName != d1.dimSpec[j].ncName)
      && forall v :: v in AllSpecs(d1) ==> |v.dimNames| >= 1
  {
    var d1 := SetNobs(d0, nobs);
    assert d1.dimSpec == SetNobsGroup(d0.dimSpec, nobs);
    forall v | v in d1.dimSpec ensures v.dimNames == [v.ncName] {
      SetNobsGroupMembers(d0.dimSpec, nobs, v);
    }
    forall v | v in AllSpecs(d1) ensures |v.dimNames| >= 1 {
      var w := SpecOrigin(d0, nobs, v);
    }
  }

  lemma SetNobsCovers(d0: Descriptor, nobs: int)
    requires AllWellShaped(d0)
    requires forall n :: n in UsedDimNames(d0) ==> exists e :: e in d0.dimSpec && e.ncName == n
    requires forall v :: v in SetNobs(d0, nobs).dimSpec ==> v.dimNames == [v.ncName]
    ensures var d1 := SetNobs(d0, nobs);
      forall v, n :: v in AllSpecs(d1) && n in v.dimNames ==> exists e :: e in d1.dimSpec && e.ncName == n
  {
    var d1 := SetNobs(d0, nobs);
    forall v, n | v in AllSpecs(d1) && n in v.dimNames
      ensures exists e :: e in d1.dimSpec && e.ncName == n
    {
      if v !in d1.dimSpec {
        CoveredName(d0, nobs, v, n);
      }
    }
  }

  lemma CoveredName(d0: Descriptor, nobs: int, v: VarSpec, n: string)
    requires AllWellShaped(d0)
    requires forall n :: n in UsedDimNames(d0) ==> exists e :: e in d0.dimSpec && e.ncName == n
    requires v in AllSpecs(SetNobs(d0, nobs)) && v !in SetNobs(d0, nobs).dimSpec && n in v.dimNames
    ensures exists e :: e in SetNobs(d0, nobs).dimSpec && e.ncName == n
  {
    var d1 := SetNobs(d0, nobs);
    var w := SpecOrigin(d0, nobs, v);
    assert n in UsedDimNames(d0);
    var e0 :| e0 in d0.dimSpec && e0.ncName == n;
    var j :| 0 <= j < |d0.dimSpec| && d0.dimSpec[j] == e0;
    assert d1.dimSpec[j] in d1.dimSpec;
  }

  /** Every spec of a constructed descriptor names at least one dimension. */
  lemma ConstructedHasDims(kind: ObsKind, ftype: FileType)
    requires NewObsType(kind, ftype).Ok?
    ensures forall v :: v in AllSpecs(NewObsType(kind, ftype).value) ==> |v.dimNames| >= 1
  {
    var d := NewObsType(kind, ftype).value;
    var b := Blank(kind, ftype);
    BlankHasDims(kind, ftype);
    forall v | v in AllSpecs(d) ensures |v.dimNames| >= 1 {
      if v in d.dimSpec {
        assert v == DimEntry(v.ncName, DimSize(v.ncName, b.nobs).value);
      } else {
        assert v in AllSpecs(b);
      }
    }
  }

  lemma BlankHasDims(kind: ObsKind, ftype: FileType)
    ensures forall v :: v in AllSpecs(Blank(kind, ftype)) ==> |v.dimNames| >= 1
  {
    var b := Blank(kind, ftype);
    assert forall v :: v in AllSpecs(b) <==> v in b.hdrSpec || v in b.intSpec || v in b.evnSpec || v in b.repSpec;
    match (kind, ftype)
    case (Aircraft, Bufr) =>
      VarsHaveDims(PerObs, AircraftBufrHeader);
      VarsHaveDims(PerObs, AircraftBufrValues);
      VarsHaveDims(PerObsText, AircraftBufrText);
    case (Aircraft, PrepBufr) =>
      VarsHaveDims(PerObs, AircraftPrepHeader);
      VarsHaveDims(PerObs, AircraftPrepValues);
      VarsHaveDims(PerEvent, AircraftPrepEvents);
    case (Sondes, PrepBufr) =>
      VarsHaveDims(PerLevel, SondesPrepHeader);
      VarsHaveDims(PerLevel, SondesPrepValues);
      VarsHaveDims(PerLevelEvent, SondesPrepEvents);
    case (Amsua, Bufr) =>
      VarsHaveDims(PerObs, AmsuaBufrHeader);
      VarsHaveDims(PerObs, AmsuaBufrValues);
      VarsHaveDims(PerChannel, AmsuaBufrChannels);
    case _ =>
  }

  lemma VarsHaveDims(dims: seq<string>, fields: seq<Field>)
    requires |dims| >= 1
    ensures forall v :: v in Vars(dims, fields) ==> |v.dimNames| >= 1
  {
  }


  /** The spec of `d` a spec of `SetNobs(d, nobs)` was rewritten from; one
      outside the coordinate group comes from a variable group. */
  lemma SpecOrigin(d: Descriptor, nobs: int, v: VarSpec) returns (w: VarSpec)
    requires AllWellShaped(d) && v in AllSpecs(SetNobs(d, nobs))
    ensures w in AllSpecs(d) && v.dimNames == w.dimNames
    ensures v !in SetNobs(d, nobs).dimSpec ==> forall n :: n in w.dimNames ==> n in UsedDimNames(d)
  {
    var d1 := SetNobs(d, nobs);
    var groups := AllGroups(d);
    assert forall k :: 0 <= k < 6 ==> groups[k] in groups;
    var k: int;
    if v in d1.dimSpec { k := 5; }
    else if v in d1.hdrSpec { k := 0; }
    else if v in d1.intSpec { k := 1; }
    else if v in d1.evnSpec { k := 2; }
    else if v in d1.repSpec { k := 3; }
    else { k := 4; }
    assert v in AllGroups(d1)[k];
    SetNobsGroupMembers(groups[k], nobs, v);
    w :| w in groups[k] && v == SetNobsVar(w, nobs);
    assert w in AllSpecs(d);
    if k < 5 {
      assert forall n :: n in w.dimNames ==> n in GroupDimNames(groups[k]);
    }
  }
}
