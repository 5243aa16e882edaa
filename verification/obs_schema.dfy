/** The observation-type descriptors of bufr2nc.py: the variable-spec tables
    of `AircraftObsType`, `SondesObsType` and `AmsuaObsType` for the BUFR and
    prepBUFR file flavours, `init_dim_spec` and `set_nobs`. A descriptor is an
    immutable value; `set_nobs` returns the rewritten descriptor. */
module ObsSchema {
  import opened Wrappers

  /** Fixed dimension sizes of the script's configuration block. */
  const MaxStringLen := 10
  const MaxEvents := 20
  const MaxLevels := 255
  /** `self.nchans`, set only by the AMSU-A descriptor. */
  const AmsuaChannels := 20
  /** `self.nobs` before `set_nobs` is called. */
  const Unset := -1
  /** The message-type pattern of a kind/flavour pair with no schema. */
  const UnDef := "UnDef"
  /** `sys.exit` status of an unknown dimension name in `init_dim_spec`. */
  const UnknownDimExit := 3

  datatype FileType = Bufr | PrepBufr

  /** The DTYPE_* codes a table uses (DTYPE_UNDEF never appears in one). */
  datatype DataType = String | Integer | Float | UInt | Double

  datatype ObsKind = Aircraft | Sondes | Amsua

  /** One entry of a `*_spec` list: netCDF name, BUFR mnemonic, data type,
      dimension names and the parallel list of dimension sizes. The
      `created` flag of the source's dimension entries is never read and is
      not modelled. */
  datatype VarSpec = VarSpec(ncName: string, mnemonic: string, dtype: DataType,
                             dimNames: seq<string>, dimSizes: seq<int>)

  datatype Descriptor = Descriptor(
    kind: ObsKind,
    ftype: FileType,
    mtypeRe: string,
    nobs: int,
    timeUnits: string,
    hdrSpec: seq<VarSpec>,
    intSpec: seq<VarSpec>,
    evnSpec: seq<VarSpec>,
    repSpec: seq<VarSpec>,
    seqSpec: seq<VarSpec>,
    dimSpec: seq<VarSpec>)

  // ---------------------------------------------------------------------------
  // Table entries

  /** A table row: netCDF name, BUFR mnemonic and data type. */
  datatype Field = Field(ncName: string, mnemonic: string, dtype: DataType)

  /** A row whose netCDF name is its mnemonic. */
  function F(name: string, t: DataType): Field {
    Field(name, name, t)
  }

  /** The size attribute the subclass constructor sets for a dimension name
      (`self.nobs`, `self.nstring`, ...), as the tables read it. */
  function AttrSize(name: string): int {
    if name == "nobs" then Unset
    else if name == "nstring" then MaxStringLen
    else if name == "nlevs" then MaxLevels
    else if name == "nevents" then MaxEvents
    else if name == "nchans" then AmsuaChannels
    else 0
  }

  function AttrSizes(dims: seq<string>): (r: seq<int>)
    ensures |r| == |dims|
    ensures forall k :: 0 <= k < |dims| ==> r[k] == AttrSize(dims[k])
  {
    seq(|dims|, k requires 0 <= k < |dims| => AttrSize(dims[k]))
  }

  /** A run of table rows that share one list of dimensions. */
  function Vars(dims: seq<string>, fields: seq<Field>): (r: seq<VarSpec>)
    ensures |r| == |fields|
    ensures forall i :: 0 <= i < |fields| ==>
              r[i] == VarSpec(fields[i].ncName, fields[i].mnemonic, fields[i].dtype, dims, AttrSizes(dims))
  {
    seq(|fields|, i requires 0 <= i < |fields| =>
      VarSpec(fields[i].ncName, fields[i].mnemonic, fields[i].dtype, dims, AttrSizes(dims)))
  }

  const PerObs := ["nobs"]
  const PerObsText := ["nobs", "nstring"]
  const PerLevel := ["nobs", "nlevs"]
  const PerEvent := ["nobs", "nevents"]
  const PerLevelEvent := ["nobs", "nlevs", "nevents"]
  const PerChannel := ["nobs", "nchans"]

  // The rows of each table, by group.
  const AircraftBufrHeader := [
    F("YEAR", Integer), F("MNTH", Integer), F("DAYS", Integer), F("HOUR", Integer),
    F("MINU", Integer), F("ACID", Double), F("CORN", Integer), F("CLAT", Float),
    F("CLON", Float), F("FLVL", Float)]
  const AircraftBufrValues := [
    F("TMDB", Float), F("TMDP", Float), F("REHU", Float), F("WSPD", Float),
    F("WDIR", Float), F("QMAT", Integer), F("QMDD", Integer), F("QMWN", Integer)]
  const AircraftBufrText := [
    F("SEQNUM", String), F("BUHD", String), F("BORG", String), F("BULTIM", String),
    F("BBB", String), F("RPID", String)]
  const AircraftPrepHeader := [
    F("SID", Double), F("ACID", Double), F("XOB", Float), F("YOB", Float),
    F("DHR", Float), F("TYP", Integer), F("ELV", Float), F("SAID", Integer),
    F("T29", Integer)]
  const AircraftPrepValues := [
    F("POB", Float), F("QOB", Float), F("TOB", Float), F("ZOB", Float),
    F("UOB", Float), F("VOB", Float), F("PWO", Float), F("MXGS", Float),
    F("PRSS", Float), F("TDO", Float), F("PMO", Float),
    F("PQM", Integer), F("QQM", Integer), F("TQM", Integer), F("ZQM", Integer),
    F("WQM", Integer), F("PWQ", Integer), F("PMQ", Integer),
    F("POE", Float), F("QOE", Float), F("TOE", Float), F("WOE", Float),
    F("PWE", Float), F("HOVI", Float), F("CAT", Integer), F("XDR", Float),
    F("YDR", Float), F("HRDR", Float), F("POAF", Integer), F("IALR", Float)]
  const AircraftPrepEvents := [
    Field("TPC_bevn", "TPC", Integer), Field("TOB_bevn", "TOB", Float),
    Field("TQM_bevn", "TQM", Integer)]
  const SondesPrepHeader := [
    F("SID", Double), F("XOB", Float), F("YOB", Float), F("DHR", Float),
    F("TYP", Integer), F("ELV", Float), F("T29", Integer)]
  const SondesPrepValues := [
    F("POB", Float), F("QOB", Float), F("TOB", Float), F("ZOB", Float),
    F("UOB", Float), F("VOB", Float), F("PWO", Float), F("TDO", Float),
    F("PQM", Integer), F("QQM", Integer), F("TQM", Integer), F("ZQM", Integer),
    F("WQM", Integer), F("PWQ", Integer), F("PMQ", Integer),
    F("POE", Float), F("QOE", Float), F("TOE", Float), F("WOE", Float),
    F("PWE", Float), F("XDR", Float), F("YDR", Float), F("HRDR", Float)]
  const SondesPrepEvents := [
    Field("TPC_bevn", "TPC", Integer), Field("TOB_bevn", "TOB", Float),
    Field("TQM_bevn", "TQM", Integer)]
  const AmsuaBufrHeader := [
    F("SAID", Integer), F("FOVN", Integer), F("YEAR", Integer), F("MNTH", Integer),
    F("DAYS", Integer), F("HOUR", Integer), F("MINU", Integer), F("SECO", Integer),
    F("CLAT", Float), F("CLON", Float), F("HOLS", Float)]
  const AmsuaBufrValues := [
    F("SAZA", Float), F("SOZA", Float), F("BEARAZ", Float), F("SOLAZI", Float)]
  const AmsuaBufrChannels := [
    F("CHNM", Integer), F("TMBR", Float), F("CSTC", Float)]

  /** The message-type pattern and five variable groups one subclass
      constructor installs, before `init_dim_spec` runs. */
  function Blank(kind: ObsKind, ftype: FileType): (r: Descriptor)
    ensures r.kind == kind && r.ftype == ftype && r.nobs == Unset && r.timeUnits == ""
    ensures r.seqSpec == [] && r.dimSpec == []
    ensures r.mtypeRe == UnDef <==> (kind, ftype) == (Sondes, Bufr) || (kind, ftype) == (Amsua, PrepBufr)
    ensures r.mtypeRe == UnDef ==> r.hdrSpec == r.intSpec == r.evnSpec == r.repSpec == []
    ensures r.mtypeRe != UnDef ==> r.hdrSpec != [] && r.intSpec != []
  {
    var d := Descriptor(kind, ftype, UnDef, Unset, "", [], [], [], [], [], []);
    match (kind, ftype)
    case (Aircraft, Bufr) => d.(
      mtypeRe := "^NC004001",
      hdrSpec := Vars(PerObs, AircraftBufrHeader),
      intSpec := Vars(PerObs, AircraftBufrValues)
        + Vars(PerObsText, AircraftBufrText))
    case (Aircraft, PrepBufr) => d.(
      mtypeRe := "AIRC[AF][RT]",
      hdrSpec := Vars(PerObs, AircraftPrepHeader),
      intSpec := Vars(PerObs, AircraftPrepValues),
      evnSpec := Vars(PerEvent, AircraftPrepEvents))
    case (Sondes, Bufr) => d
    case (Sondes, PrepBufr) => d.(
      mtypeRe := "ADPUPA",
      hdrSpec := Vars(PerLevel, SondesPrepHeader),
      intSpec := Vars(PerLevel, SondesPrepValues),
      evnSpec := Vars(PerLevelEvent, SondesPrepEvents))
    case (Amsua, Bufr) => d.(
      mtypeRe := "^NC021023",
      hdrSpec := Vars(PerObs, AmsuaBufrHeader),
      intSpec := Vars(PerObs, AmsuaBufrValues),
      repSpec := Vars(PerChannel, AmsuaBufrChannels))
    case (Amsua, PrepBufr) => d
  }

  // ---------------------------------------------------------------------------
  // Dimension specs

  /** The five variable groups `init_dim_spec` takes the union over. */
  function VarGroups(d: Descriptor): seq<seq<VarSpec>> {
    [d.hdrSpec, d.intSpec, d.evnSpec, d.repSpec, d.seqSpec]
  }

  /** The six groups `set_nobs` rewrites, dimension specs included. */
  function AllGroups(d: Descriptor): seq<seq<VarSpec>> {
    VarGroups(d) + [d.dimSpec]
  }

  /** Every dimension name the variable groups use, as a set. */
  ghost function UsedDimNames(d: Descriptor): set<string> {
    GroupDimNames(d.hdrSpec) + GroupDimNames(d.intSpec) + GroupDimNames(d.evnSpec)
      + GroupDimNames(d.repSpec) + GroupDimNames(d.seqSpec)
  }

  ghost function GroupDimNames(g: seq<VarSpec>): set<string> {
    set v, n | v in g && n in v.dimNames :: n
  }

  /** The dimension names of a group, in order of appearance. */
  function NamesOfGroup(g: seq<VarSpec>): (r: seq<string>)
    ensures forall n :: n in r <==> n in GroupDimNames(g)
  {
    if g == [] then []
    else
      assert forall v :: v in g <==> v == g[0] || v in g[1..];
      g[0].dimNames + NamesOfGroup(g[1..])
  }

  /** The dimension names of the five variable groups, in order of appearance. */
  function NamesInUse(d: Descriptor): (r: seq<string>)
    ensures forall n :: n in r <==> n in UsedDimNames(d)
  {
    NamesOfGroup(d.hdrSpec) + NamesOfGroup(d.intSpec) + NamesOfGroup(d.evnSpec)
      + NamesOfGroup(d.repSpec) + NamesOfGroup(d.seqSpec)
  }

  /** The distinct entries of `xs`, each at its first occurrence. */
  function Distinct(xs: seq<string>): (r: seq<string>)
    ensures forall x :: x in r <==> x in xs
    ensures forall i, j :: 0 <= i < j < |r| ==> r[i] != r[j]
  {
    if xs == [] then []
    else
      var rest := Distinct(xs[..|xs| - 1]);
      if xs[|xs| - 1] in rest then rest else rest + [xs[|xs| - 1]]
  }

  /** The size `init_dim_spec` gives a dimension name, if it knows the name. */
  function DimSize(name: string, nobs: int): Option<int> {
    if name == "nobs" then Some(nobs)
    else if name == "nlevs" then Some(MaxLevels)
    else if name == "nevents" then Some(MaxEvents)
    else if name == "nstring" then Some(MaxStringLen)
    else None
  }

  /** The coordinate-variable entry `init_dim_spec` appends for a dimension. */
  function DimEntry(name: string, size: int): VarSpec {
    VarSpec(name, name, UInt, [name], [size])
  }

  function DimEntries(names: seq<string>, nobs: int): (r: Result<seq<VarSpec>, int>)
    ensures r.Ok? <==> forall n :: n in names ==> DimSize(n, nobs).Some?
    ensures r.Err? ==> r.error == UnknownDimExit
    ensures r.Ok? ==> |r.value| == |names|
    ensures r.Ok? ==> forall i :: 0 <= i < |names| ==> r.value[i] == DimEntry(names[i], DimSize(names[i], nobs).value)
  {
    if names == [] then Ok([])
    else match DimSize(names[0], nobs)
      case None => Err(UnknownDimExit)
      case Some(size) =>
        match DimEntries(names[1..], nobs)
        case Err(e) => Err(e)
        case Ok(rest) => Ok([DimEntry(names[0], size)] + rest)
  }

  /** `init_dim_spec`: one coordinate entry per distinct dimension name used
      by the five variable groups, sized from the fixed table; any other
      name ends the script with status 3. Python iterates a `set` here, so
      the source's entry order is unspecified; the model keeps the order of
      first use, and the contract speaks only of the names. */
  function InitDimSpec(d: Descriptor): (r: Result<seq<VarSpec>, int>)
    ensures r.Ok? <==> forall n :: n in UsedDimNames(d) ==> DimSize(n, d.nobs).Some?
    ensures r.Err? ==> r.error == UnknownDimExit
    ensures r.Ok? ==> forall n :: n in UsedDimNames(d) <==> exists v :: v in r.value && v.ncName == n
    ensures r.Ok? ==> forall i, j :: 0 <= i < j < |r.value| ==> r.value[i].ncName != r.value[j].ncName
    ensures r.Ok? ==> forall v :: v in r.value ==> v == DimEntry(v.ncName, DimSize(v.ncName, d.nobs).value)
  {
    var names := Distinct(NamesInUse(d));
    var r := DimEntries(names, d.nobs);
    if r.Ok? then
      assert forall v :: v in r.value ==> exists i :: 0 <= i < |names| && v == r.value[i];
      assert forall n :: n in names ==> exists i :: 0 <= i < |names| && names[i] == n && r.value[i].ncName == n;
      r
    else r
  }

  /** The constructor of an observation type: the subclass tables followed by
      `init_dim_spec`. */
  function NewObsType(kind: ObsKind, ftype: FileType): (r: Result<Descriptor, int>)
    ensures r.Ok? <==> InitDimSpec(Blank(kind, ftype)).Ok?
    ensures r.Ok? ==> InitDimSpec(Blank(kind, ftype)) == Ok(r.value.dimSpec)
    ensures r.Ok? ==> r.value == Blank(kind, ftype).(dimSpec := r.value.dimSpec)
    ensures r.Err? ==> r == Err(UnknownDimExit)
    ensures r.Ok? ==> Preparable(r.value)
  {
    var d := Blank(kind, ftype);
    var dims :- InitDimSpec(d);
    BlankWellShaped(kind, ftype);
    var r := d.(dimSpec := dims);
    assert forall k :: 0 <= k < 5 ==> AllGroups(r)[k] == AllGroups(d)[k];
    assert forall v :: v in dims ==> WellShaped(v) && |v.dimSizes| == 1;
    Ok(r)
  }

  /** Every size list is parallel to its name list, and every coordinate
      entry has a size: what `set_nobs` and `create_nc_datasets` index by. */
  predicate Preparable(d: Descriptor) {
    && AllWellShaped(d)
    && forall v :: v in d.dimSpec ==> |v.dimSizes| >= 1
  }

  lemma BlankWellShaped(kind: ObsKind, ftype: FileType)
    ensures forall g, v :: g in AllGroups(Blank(kind, ftype)) && v in g ==> WellShaped(v)
  {
    var b := Blank(kind, ftype);
    forall g, v | g in AllGroups(b) && v in g ensures WellShaped(v) {
      VarsShape(PerObs, AircraftBufrHeader, v);
      VarsShape(PerObs, AircraftBufrValues, v);
      VarsShape(PerObsText, AircraftBufrText, v);
      VarsShape(PerObs, AircraftPrepHeader, v);
      VarsShape(PerObs, AircraftPrepValues, v);
      VarsShape(PerEvent, AircraftPrepEvents, v);
      VarsShape(PerLevel, SondesPrepHeader, v);
      VarsShape(PerLevel, SondesPrepValues, v);
      VarsShape(PerLevelEvent, SondesPrepEvents, v);
      VarsShape(PerObs, AmsuaBufrHeader, v);
      VarsShape(PerObs, AmsuaBufrValues, v);
      VarsShape(PerChannel, AmsuaBufrChannels, v);
    }
  }

  lemma VarsShape(dims: seq<string>, fields: seq<Field>, v: VarSpec)
    ensures v in Vars(dims, fields) ==> v.dimNames == dims && WellShaped(v)
  {
  }

  // ---------------------------------------------------------------------------
  // set_nobs

  /** Sizes parallel to names: the shape every table entry has. */
  predicate WellShaped(v: VarSpec) {
    |v.dimNames| == |v.dimSizes|
  }

  predicate AllWellShaped(d: Descriptor) {
    forall g, v :: g in AllGroups(d) && v in g ==> WellShaped(v)
  }

  function SetNobsVar(v: VarSpec, nobs: int): (r: VarSpec)
    requires WellShaped(v)
    ensures r.ncName == v.ncName && r.mnemonic == v.mnemonic && r.dtype == v.dtype
    ensures r.dimNames == v.dimNames && |r.dimSizes| == |v.dimSizes|
    ensures forall k :: 0 <= k < |v.dimSizes| ==>
              r.dimSizes[k] == (if v.dimNames[k] == "nobs" then nobs else v.dimSizes[k])
  {
    v.(dimSizes := seq(|v.dimSizes|, i requires 0 <= i < |v.dimSizes| =>
                        if v.dimNames[i] == "nobs" then nobs else v.dimSizes[i]))
  }

  function SetNobsGroup(g: seq<VarSpec>, nobs: int): (r: seq<VarSpec>)
    requires forall v :: v in g ==> WellShaped(v)
    ensures |r| == |g|
    ensures forall i :: 0 <= i < |g| ==> r[i] == SetNobsVar(g[i], nobs)
    ensures NobsRewritten(g, r, nobs)
  {
    assert forall i :: 0 <= i < |g| ==> g[i] in g;
    var r := seq(|g|, i requires 0 <= i < |g| => SetNobsVar(g[i], nobs));
    assert forall i :: 0 <= i < |g| ==> r[i] == SetNobsVar(g[i], nobs) && WellShaped(g[i]);
    r
  }

  /** `g'` is `g` with exactly the sizes whose parallel name is "nobs" set to
      `nobs`, every other size, name and field unchanged. */
  predicate NobsRewritten(g: seq<VarSpec>, g': seq<VarSpec>, nobs: int) {
    && |g'| == |g|
    && forall i :: 0 <= i < |g| ==>
         && g'[i].ncName == g[i].ncName
         && g'[i].mnemonic == g[i].mnemonic
         && g'[i].dtype == g[i].dtype
         && g'[i].dimNames == g[i].dimNames
         && |g'[i].dimSizes| == |g[i].dimSizes| == |g[i].dimNames|
         && forall k :: 0 <= k < |g[i].dimSizes| ==>
              g'[i].dimSizes[k] == (if g[i].dimNames[k] == "nobs" then nobs else g[i].dimSizes[k])
  }

  /** `set_nobs`: record the observation count and write it into every size
      whose dimension name is "nobs", in all six groups. */
  function SetNobs(d: Descriptor, nobs: int): (r: Descriptor)
    requires AllWellShaped(d)
    ensures r.nobs == nobs
    ensures r.kind == d.kind && r.ftype == d.ftype && r.mtypeRe == d.mtypeRe && r.timeUnits == d.timeUnits
    ensures |AllGroups(r)| == |AllGroups(d)|
    ensures forall k :: 0 <= k < |AllGroups(d)| ==> NobsRewritten(AllGroups(d)[k], AllGroups(r)[k], nobs)
  {
    assert forall k :: 0 <= k < 6 ==> AllGroups(d)[k] in AllGroups(d);
    var r := d.(nobs := nobs,
       hdrSpec := SetNobsGroup(d.hdrSpec, nobs),
       intSpec := SetNobsGroup(d.intSpec, nobs),
       evnSpec := SetNobsGroup(d.evnSpec, nobs),
       repSpec := SetNobsGroup(d.repSpec, nobs),
       seqSpec := SetNobsGroup(d.seqSpec, nobs),
       dimSpec := SetNobsGroup(d.dimSpec, nobs));
    assert forall k :: 0 <= k < 6 ==> AllGroups(r)[k] == SetNobsGroup(AllGroups(d)[k], nobs);
    r
  }

  // ---------------------------------------------------------------------------
  // Properties

  /** Every size in the descriptor is the one the dimension table gives its
      name for the descriptor's observation count. */
  predicate SizesAgree(d: Descriptor) {
    forall g, v :: g in AllGroups(d) && v in g ==>
      && WellShaped(v)
      && forall k :: 0 <= k < |v.dimNames| ==> DimSize(v.dimNames[k], d.nobs) == Some(v.dimSizes[k])
  }

  lemma SetNobsGroupMembers(g: seq<VarSpec>, nobs: int, v': VarSpec)
    requires forall v :: v in g ==> WellShaped(v)
    requires v' in SetNobsGroup(g, nobs)
    ensures exists v :: v in g && v' == SetNobsVar(v, nobs)
  {
    var i :| 0 <= i < |g| && SetNobsGroup(g, nobs)[i] == v';
    assert g[i] in g;
  }

  /** `set_nobs` keeps every size consistent with the dimension table: the
      observation count it writes is the one the table now gives "nobs". */
  lemma SetNobsKeepsSizesAgreeing(d: Descriptor, nobs: int)
    requires SizesAgree(d)
    ensures AllWellShaped(d)
    ensures SizesAgree(SetNobs(d, nobs))
  {
    var r := SetNobs(d, nobs);
    forall g', v' | g' in AllGroups(r) && v' in g'
      ensures WellShaped(v')
      ensures forall k :: 0 <= k < |v'.dimNames| ==> DimSize(v'.dimNames[k], nobs) == Some(v'.dimSizes[k])
    {
      var idx :| 0 <= idx < 6 && AllGroups(r)[idx] == g';
      RewrittenAgrees(AllGroups(d)[idx], g', d.nobs, nobs, v');
    }
  }

  /** A rewritten member agrees with the table for the new count when the
      original agreed for the old one. */
  lemma RewrittenAgrees(g: seq<VarSpec>, g': seq<VarSpec>, oldNobs: int, nobs: int, v': VarSpec)
    requires NobsRewritten(g, g', nobs) && v' in g'
    requires forall v :: v in g ==>
      && WellShaped(v)
      && forall k :: 0 <= k < |v.dimNames| ==> DimSize(v.dimNames[k], oldNobs) == Some(v.dimSizes[k])
    ensures WellShaped(v')
    ensures forall k :: 0 <= k < |v'.dimNames| ==> DimSize(v'.dimNames[k], nobs) == Some(v'.dimSizes[k])
  {
    var i :| 0 <= i < |g'| && g'[i] == v';
    assert g[i] in g;
  }

  /** `set_nobs` is idempotent, and a later call overrides an earlier one. */
  lemma SetNobsOverrides(d: Descriptor, a: int, b: int)
    requires AllWellShaped(d)
    ensures AllWellShaped(SetNobs(d, a))
    ensures SetNobs(SetNobs(d, a), b) == SetNobs(d, b)
    ensures SetNobs(SetNobs(d, b), b) == SetNobs(d, b)
  {
    SetNobsWellShaped(d, a);
    SetNobsWellShaped(d, b);
    SetNobsTwice(d, a, b);
    SetNobsTwice(d, b, b);
  }

  lemma SetNobsTwice(d: Descriptor, a: int, b: int)
    requires AllWellShaped(d) && AllWellShaped(SetNobs(d, a))
    ensures SetNobs(SetNobs(d, a), b) == SetNobs(d, b)
  {
    assert forall k :: 0 <= k < 6 ==> AllGroups(d)[k] in AllGroups(d);
    SetNobsGroupTwice(d.hdrSpec, a, b);
    SetNobsGroupTwice(d.intSpec, a, b);
    SetNobsGroupTwice(d.evnSpec, a, b);
    SetNobsGroupTwice(d.repSpec, a, b);
    SetNobsGroupTwice(d.seqSpec, a, b);
    SetNobsGroupTwice(d.dimSpec, a, b);
  }

  /** `set_nobs` keeps every size list parallel to its name list. */
  lemma SetNobsWellShaped(d: Descriptor, nobs: int)
    requires AllWellShaped(d)
    ensures AllWellShaped(SetNobs(d, nobs))
  {
    var r := SetNobs(d, nobs);
    forall g, v | g in AllGroups(r) && v in g ensures WellShaped(v) {
      var idx :| 0 <= idx < 6 && AllGroups(r)[idx] == g;
      RewrittenWellShaped(AllGroups(d)[idx], g, nobs, v);
    }
  }

  lemma RewrittenWellShaped(g: seq<VarSpec>, g': seq<VarSpec>, nobs: int, v: VarSpec)
    requires NobsRewritten(g, g', nobs) && v in g'
    ensures WellShaped(v)
  {
    var i :| 0 <= i < |g'| && g'[i] == v;
  }

  lemma SetNobsGroupTwice(g: seq<VarSpec>, a: int, b: int)
    requires forall v :: v in g ==> WellShaped(v)
    ensures forall v :: v in SetNobsGroup(g, a) ==> WellShaped(v)
    ensures SetNobsGroup(SetNobsGroup(g, a), b) == SetNobsGroup(g, b)
  {
    var ga := SetNobsGroup(g, a);
    assert forall i :: 0 <= i < |g| ==> g[i] in g;
    forall i | 0 <= i < |g| ensures SetNobsVar(ga[i], b) == SetNobsVar(g[i], b) {
      assert SetNobsVar(ga[i], b).dimSizes == SetNobsVar(g[i], b).dimSizes;
    }
  }

  /** Writing the count after `init_dim_spec` gives the same dimension specs
      as running `init_dim_spec` with the count already known. */
  lemma InitDimSpecThenSetNobs(d: Descriptor, nobs: int)
    requires InitDimSpec(d).Ok?
    ensures forall v :: v in InitDimSpec(d).value ==> WellShaped(v)
    ensures InitDimSpec(d.(nobs := nobs)).Ok?
    ensures SetNobsGroup(InitDimSpec(d).value, nobs) == InitDimSpec(d.(nobs := nobs)).value
  {
    var a := InitDimSpec(d).value;
    var b := InitDimSpec(d.(nobs := nobs)).value;
    var names := Distinct(NamesInUse(d));
    assert a == DimEntries(names, d.nobs).value;
    assert b == DimEntries(names, nobs).value;
    forall i | 0 <= i < |a| ensures SetNobsVar(a[i], nobs) == b[i] {
      assert SetNobsVar(a[i], nobs).dimSizes == b[i].dimSizes;
    }
  }

  lemma VarsSizesAgree(dims: seq<string>, fields: seq<Field>)
    requires forall n :: n in dims ==> DimSize(n, Unset) == Some(AttrSize(n))
    ensures forall v :: v in Vars(dims, fields) ==>
              && WellShaped(v)
              && forall k :: 0 <= k < |v.dimNames| ==> DimSize(v.dimNames[k], Unset) == Some(v.dimSizes[k])
  {
    forall v | v in Vars(dims, fields)
      ensures WellShaped(v)
      ensures forall k :: 0 <= k < |v.dimNames| ==> DimSize(v.dimNames[k], Unset) == Some(v.dimSizes[k])
    {
      assert v.dimNames == dims && v.dimSizes == AttrSizes(dims);
      assert forall k :: 0 <= k < |dims| ==> dims[k] in dims;
    }
  }

  /** Every table but the AMSU-A BUFR one writes the sizes the dimension
      table gives its names while the count is still unset. */
  lemma BlankSizesAgree(kind: ObsKind, ftype: FileType)
    requires !(kind == Amsua && ftype == Bufr)
    ensures SizesAgree(Blank(kind, ftype))
  {
    match (kind, ftype)
    case (Aircraft, Bufr) => AircraftBufrAgrees();
    case (Aircraft, PrepBufr) => AircraftPrepAgrees();
    case (Sondes, PrepBufr) => SondesPrepAgrees();
    case _ => GroupsAgree(Blank(kind, ftype));
  }

  lemma VarsAgree(dims: seq<string>, fields: seq<Field>)
    requires forall n :: n in dims ==> DimSize(n, Unset) == Some(AttrSize(n))
    ensures forall v :: v in Vars(dims, fields) ==> MemberAgrees(v, Unset)
  {
    VarsSizesAgree(dims, fields);
  }

  lemma AircraftBufrAgrees()
    ensures SizesAgree(Blank(Aircraft, Bufr))
  {
    var d := Blank(Aircraft, Bufr);
    VarsAgree(PerObs, AircraftBufrHeader);
    VarsAgree(PerObs, AircraftBufrValues);
    VarsAgree(PerObsText, AircraftBufrText);
    assert forall v :: v in d.intSpec ==>
      v in Vars(PerObs, AircraftBufrValues) || v in Vars(PerObsText, AircraftBufrText);
    GroupsAgree(d);
  }

  lemma AircraftPrepAgrees()
    ensures SizesAgree(Blank(Aircraft, PrepBufr))
  {
    VarsAgree(PerObs, AircraftPrepHeader);
    VarsAgree(PerObs, AircraftPrepValues);
    VarsAgree(PerEvent, AircraftPrepEvents);
    GroupsAgree(Blank(Aircraft, PrepBufr));
  }

  lemma SondesPrepAgrees()
    ensures SizesAgree(Blank(Sondes, PrepBufr))
  {
    VarsAgree(PerLevel, SondesPrepHeader);
    VarsAgree(PerLevel, SondesPrepValues);
    VarsAgree(PerLevelEvent, SondesPrepEvents);
    GroupsAgree(Blank(Sondes, PrepBufr));
  }

  /** A member agrees with the dimension table for a count. */
  predicate MemberAgrees(v: VarSpec, nobs: int) {
    && WellShaped(v)
    && forall k :: 0 <= k < |v.dimNames| ==> DimSize(v.dimNames[k], nobs) == Some(v.dimSizes[k])
  }

  lemma GroupsAgree(d: Descriptor)
    requires forall v :: v in d.hdrSpec ==> MemberAgrees(v, d.nobs)
    requires forall v :: v in d.intSpec ==> MemberAgrees(v, d.nobs)
    requires forall v :: v in d.evnSpec ==> MemberAgrees(v, d.nobs)
    requires forall v :: v in d.repSpec ==> MemberAgrees(v, d.nobs)
    requires forall v :: v in d.seqSpec ==> MemberAgrees(v, d.nobs)
    requires forall v :: v in d.dimSpec ==> MemberAgrees(v, d.nobs)
    ensures SizesAgree(d)
  {
    forall g, v | g in AllGroups(d) && v in g
      ensures WellShaped(v)
      ensures forall k :: 0 <= k < |v.dimNames| ==> DimSize(v.dimNames[k], d.nobs) == Some(v.dimSizes[k])
    {
      assert MemberAgrees(v, d.nobs);
    }
  }

  /** Which constructions succeed: every table but the AMSU-A BUFR one uses
      only dimensions `init_dim_spec` knows; that one declares "nchans",
      which it does not, and the constructor exits with status 3. */
  lemma NewObsTypeOutcomes(kind: ObsKind, ftype: FileType)
    ensures NewObsType(kind, ftype).Err? <==> kind == Amsua && ftype == Bufr
  {
    var d := Blank(kind, ftype);
    if kind == Amsua && ftype == Bufr {
      UsedDimNamesAmsua();
      UnknownNameFails(d, "nchans");
    } else {
      KnownNamesOnly(kind, ftype);
      KnownNamesSucceed(d);
    }
  }

  /** Every table but the AMSU-A BUFR one uses only dimensions the
      dimension table knows. */
  lemma KnownNamesOnly(kind: ObsKind, ftype: FileType)
    requires !(kind == Amsua && ftype == Bufr)
    ensures UsedDimNames(Blank(kind, ftype)) <= {"nobs", "nstring", "nlevs", "nevents"}
  {
    match (kind, ftype)
    case (Aircraft, Bufr) => UsedDimNamesAircraftBufr();
    case (Aircraft, PrepBufr) => UsedDimNamesAircraftPrep();
    case (Sondes, _) => UsedDimNamesSondes();
    case (Amsua, PrepBufr) => UsedDimNamesAmsua();
  }

  lemma KnownNamesSucceed(d: Descriptor)
    requires UsedDimNames(d) <= {"nobs", "nstring", "nlevs", "nevents"}
    ensures InitDimSpec(d).Ok?
  {
    AllNamesKnown(d);
  }

  lemma AllNamesKnown(d: Descriptor)
    requires UsedDimNames(d) <= {"nobs", "nstring", "nlevs", "nevents"}
    ensures forall n :: n in UsedDimNames(d) ==> DimSize(n, d.nobs).Some?
  {
    forall n | n in UsedDimNames(d) ensures DimSize(n, d.nobs).Some? {
      KnownName(n, d.nobs);
    }
  }

  lemma KnownName(n: string, nobs: int)
    requires n in {"nobs", "nstring", "nlevs", "nevents"}
    ensures DimSize(n, nobs).Some?
  {
  }

  lemma UnknownNameFails(d: Descriptor, n: string)
    requires n in UsedDimNames(d) && DimSize(n, d.nobs).None?
    ensures InitDimSpec(d).Err?
  {
  }

  /** A constructed descriptor, coordinate entries included, writes the
      sizes the dimension table gives its names. */
  lemma NewObsTypeSizesAgree(kind: ObsKind, ftype: FileType)
    requires NewObsType(kind, ftype).Ok?
    ensures SizesAgree(NewObsType(kind, ftype).value)
  {
    NewObsTypeOutcomes(kind, ftype);
    BlankSizesAgree(kind, ftype);
    WithDimSpecAgrees(Blank(kind, ftype));
  }

  lemma WithDimSpecAgrees(b: Descriptor)
    requires SizesAgree(b) && InitDimSpec(b).Ok?
    ensures SizesAgree(b.(dimSpec := InitDimSpec(b).value))
  {
    var d := b.(dimSpec := InitDimSpec(b).value);
    assert forall k :: 0 <= k < 5 ==> AllGroups(d)[k] == AllGroups(b)[k];
    assert forall g :: g in AllGroups(d) ==> g == d.dimSpec || g in AllGroups(b);
  }

  lemma GroupDimNamesOfVars(dims: seq<string>, fields: seq<Field>)
    requires fields != []
    ensures GroupDimNames(Vars(dims, fields)) == set n | n in dims
  {
    var g := Vars(dims, fields);
    assert g[0] in g;
    forall n | n in GroupDimNames(g) ensures n in dims {
      var v :| v in g && n in v.dimNames;
    }
  }

  lemma GroupDimNamesConcat(a: seq<VarSpec>, b: seq<VarSpec>)
    ensures GroupDimNames(a + b) == GroupDimNames(a) + GroupDimNames(b)
  {
    assert forall v :: v in a + b <==> v in a || v in b;
  }

  /** The dimension names each table ends up with: only those its variables
      use, so no schema carries an unused dimension. */
  lemma UsedDimNamesAircraftBufr()
    ensures UsedDimNames(Blank(Aircraft, Bufr)) == {"nobs", "nstring"}
  {
    GroupDimNamesOfVars(PerObs, AircraftBufrHeader);
    GroupDimNamesOfVars(PerObs, AircraftBufrValues);
    GroupDimNamesOfVars(PerObsText, AircraftBufrText);
    GroupDimNamesConcat(Vars(PerObs, AircraftBufrValues), Vars(PerObsText, AircraftBufrText));
    assert GroupDimNames([]) == {};
  }

  lemma UsedDimNamesAircraftPrep()
    ensures UsedDimNames(Blank(Aircraft, PrepBufr)) == {"nobs", "nevents"}
  {
    GroupDimNamesOfVars(PerObs, AircraftPrepHeader);
    GroupDimNamesOfVars(PerObs, AircraftPrepValues);
    GroupDimNamesOfVars(PerEvent, AircraftPrepEvents);
    assert GroupDimNames([]) == {};
  }

  lemma UsedDimNamesSondes()
    ensures UsedDimNames(Blank(Sondes, PrepBufr)) == {"nobs", "nlevs", "nevents"}
    ensures UsedDimNames(Blank(Sondes, Bufr)) == {}
  {
    GroupDimNamesOfVars(PerLevel, SondesPrepHeader);
    GroupDimNamesOfVars(PerLevel, SondesPrepValues);
    GroupDimNamesOfVars(PerLevelEvent, SondesPrepEvents);
    assert GroupDimNames([]) == {};
  }

  lemma UsedDimNamesAmsua()
    ensures UsedDimNames(Blank(Amsua, Bufr)) == {"nobs", "nchans"}
    ensures UsedDimNames(Blank(Amsua, PrepBufr)) == {}
  {
    GroupDimNamesOfVars(PerObs, AmsuaBufrHeader);
    GroupDimNamesOfVars(PerObs, AmsuaBufrValues);
    GroupDimNamesOfVars(PerChannel, AmsuaBufrChannels);
    assert GroupDimNames([]) == {};
  }
}
