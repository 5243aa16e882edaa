/** The main program of bufr2nc.py: argument checks, the choice of
    observation type, the pre-scan and the preparation of the netCDF file
    (time units, observation count, dimensions and variables). Printing,
    file access and the conversion pass itself are outside the model; the
    file checks arrive as booleans. */
module Bufr2nc {
  import opened Wrappers
  import opened ObsSchema
  import opened NcLayout
  import opened PreScan
  import opened RefDate

  /** Exit status of bad arguments. */
  const BadArgsExit := 2

  /** The command line, with the two file-system questions already answered. */
  datatype Args = Args(
    obsType: string,
    inputExists: bool,
    outputExists: bool,
    clobber: bool,
    prepbufr: bool,
    maxNumMsg: int)

  /** How the start-up checks end: an exit status, the NameError the script
      raises when it prints an observation object it never made, or a
      descriptor to convert with. */
  datatype StartupResult = Exit(status: int) | NameError | Ready(obs: Descriptor)

  function FileTypeOf(a: Args): FileType {
    if a.prepbufr then PrepBufr else Bufr
  }

  function KindOf(name: string): Option<ObsKind> {
    if name == "Aircraft" then Some(Aircraft)
    else if name == "Sondes" then Some(Sondes)
    else if name == "Amsua" then Some(Amsua)
    else None
  }

  /** The input must exist, and the output may exist only with clobbering. */
  predicate FilesOk(a: Args) {
    a.inputExists && (!a.outputExists || a.clobber)
  }

  /** The pairs of kind and file flavour that have a schema. */
  predicate HasSchema(kind: ObsKind, ftype: FileType) {
    kind == Aircraft || (kind == Sondes && ftype == PrepBufr)
  }

  /** The start-up of the script as written: the descriptor is built (and may
      exit with status 3) before any bad argument is acted on, and an unknown
      observation type reaches the debug print of the unbound `Obs`. */
  function StartupAsWritten(a: Args): (r: StartupResult)
    ensures KindOf(a.obsType).None? <==> r == NameError
    ensures r == Exit(UnknownDimExit) <==> KindOf(a.obsType) == Some(Amsua) && !a.prepbufr
    ensures r.Ready? <==> FilesOk(a) && KindOf(a.obsType).Some? && HasSchema(KindOf(a.obsType).value, FileTypeOf(a))
    ensures r.Ready? ==> NewObsType(KindOf(a.obsType).value, FileTypeOf(a)) == Ok(r.obs)
    ensures r.Exit? ==> r.status == UnknownDimExit || r.status == BadArgsExit
  {
    match KindOf(a.obsType)
    case None => NameError
    case Some(kind) =>
      NewObsTypeOutcomes(kind, FileTypeOf(a));
      SchemaPairs(kind, FileTypeOf(a));
      match NewObsType(kind, FileTypeOf(a))
      case Err(status) => Exit(status)
      case Ok(obs) =>
        if !FilesOk(a) || obs.mtypeRe == UnDef then Exit(BadArgsExit) else Ready(obs)
  }

  /** The start-up with an unknown observation type ending in the bad-argument
      exit status, as the script's error message announces. */
  function StartupCorrected(a: Args): (r: StartupResult)
    ensures r != NameError
    ensures KindOf(a.obsType).None? ==> r == Exit(BadArgsExit)
    ensures KindOf(a.obsType).Some? ==> r == StartupAsWritten(a)
  {
    if KindOf(a.obsType).None? then Exit(BadArgsExit) else StartupAsWritten(a)
  }

  /** The message-type pattern is `UnDef` exactly for the pairs with no schema. */
  lemma UndefinedPatterns(kind: ObsKind, ftype: FileType)
    ensures Blank(kind, ftype).mtypeRe == UnDef <==> !HasSchema(kind, ftype) && !(kind == Amsua && ftype == Bufr)
  {
  }

  /** The descriptor is made and has a message-type pattern exactly for the
      pairs with a schema. */
  lemma SchemaPairs(kind: ObsKind, ftype: FileType)
    ensures (NewObsType(kind, ftype).Ok? && NewObsType(kind, ftype).value.mtypeRe != UnDef) <==> HasSchema(kind, ftype)
  {
    NewObsTypeOutcomes(kind, ftype);
    UndefinedPatterns(kind, ftype);
  }

  /** An unknown observation type crashes the script as written instead of
      ending with the bad-argument status. */
  lemma UnknownTypeCrashesAsWritten(a: Args)
    requires a.obsType == "Radar"
    ensures StartupAsWritten(a) == NameError
    ensures StartupCorrected(a) == Exit(BadArgsExit)
  {
  }

  // ---------------------------------------------------------------------------
  // Preparing the output file

  /** What the script has decided by the time it starts converting. */
  datatype Prepared = Prepared(scan: Scan, refDate: nat, obs: Descriptor, schema: NcSchema)

  /** The pre-scan, the reference date and its time units, `set_nobs` and
      `create_nc_datasets`, on a constructed descriptor, as the script runs
      them: with nothing selected, `FindRefDate` of the sentinel raises
      ValueError. */
  function Prepare(obs: Descriptor, msgs: seq<Message>, search: (string, string) -> bool, maxNumMsg: int)
    : (r: Result<Prepared, ScanError>)
    requires Preparable(obs)
    ensures var scan := ScanOf(msgs, obs.mtypeRe, search, maxNumMsg);
      && (scan.numMsg == 0 ==> r == Err(BadDate(ValueError)))
      && (r.Ok? ==> && scan.numMsg > 0
                    && r.value.scan == scan
                    && FindRefDate(scan.earliest) == Ok(r.value.refDate)
                    && SplitDate(r.value.refDate).Ok?
                    && r.value.obs.nobs == scan.numObs
                    && r.value.obs.timeUnits == TimeUnits(SplitDate(r.value.refDate).value)
                    && r.value.obs.mtypeRe == obs.mtypeRe)
  {
    var scan := ScanOf(msgs, obs.mtypeRe, search, maxNumMsg);
    match RefDateAsWritten(scan)
    case Err(e) => Err(BadDate(e))
    case Ok(refDate) =>
      match SplitDate(refDate)
      case Err(e) => Err(BadDate(e))
      case Ok(t) =>
        var timed := obs.(timeUnits := TimeUnits(t));
        assert AllGroups(timed) == AllGroups(obs);
        var counted := SetNobs(timed, scan.numObs);
        CountedHasDims(timed, scan.numObs);
        Ok(Prepared(scan, refDate, counted, CreateNcDatasets(counted)))
  }

  /** The same with an empty selection reported as such; whenever something
      is selected it agrees with the script. */
  function PrepareCorrected(obs: Descriptor, msgs: seq<Message>, search: (string, string) -> bool, maxNumMsg: int)
    : (r: Result<Prepared, ScanError>)
    requires Preparable(obs)
    ensures var scan := ScanOf(msgs, obs.mtypeRe, search, maxNumMsg);
      && (scan.numMsg == 0 ==> r == Err(NoMessagesSelected))
      && (scan.numMsg > 0 ==> r == Prepare(obs, msgs, search, maxNumMsg))
      && (r.Ok? ==> && r.value.scan == scan
                    && FindRefDate(scan.earliest) == Ok(r.value.refDate)
                    && SplitDate(r.value.refDate).Ok?
                    && r.value.obs.nobs == scan.numObs
                    && r.value.obs.timeUnits == TimeUnits(SplitDate(r.value.refDate).value)
                    && r.value.obs.mtypeRe == obs.mtypeRe)
  {
    var scan := ScanOf(msgs, obs.mtypeRe, search, maxNumMsg);
    match ReferenceDate(scan)
    case Err(e) => Err(e)
    case Ok(refDate) =>
      match SplitDate(refDate)
      case Err(e) => Err(BadDate(e))
      case Ok(t) =>
        var timed := obs.(timeUnits := TimeUnits(t));
        assert AllGroups(timed) == AllGroups(obs);
        var counted := SetNobs(timed, scan.numObs);
        CountedHasDims(timed, scan.numObs);
        Ok(Prepared(scan, refDate, counted, CreateNcDatasets(counted)))
  }

  lemma ConstructedTimeUnits(obs: Descriptor, timed: Descriptor)
    requires Constructed(obs) && timed == obs.(timeUnits := timed.timeUnits)
    ensures Constructed(timed)
  {
    assert AllGroups(timed) == AllGroups(obs);
    assert AllSpecs(timed) == AllSpecs(obs);
    assert UsedDimNames(timed) == UsedDimNames(obs);
  }

  lemma CountedHasDims(d: Descriptor, nobs: int)
    requires Preparable(d)
    ensures forall v :: v in SetNobs(d, nobs).dimSpec ==> |v.dimSizes| >= 1
  {
    assert forall v :: v in d.dimSpec ==> v in AllGroups(d)[5];
    forall v | v in SetNobs(d, nobs).dimSpec ensures |v.dimSizes| >= 1 {
      SetNobsGroupMembers(d.dimSpec, nobs, v);
    }
  }

  /** End to end: a constructed observation type and a file with at least one
      selected observation yield a well-formed netCDF plan whose observation
      dimension is the number of selected subsets. */
  lemma PrepareWellFormed(kind: ObsKind, ftype: FileType, msgs: seq<Message>, search: (string, string) -> bool, maxNumMsg: int)
    requires HasSchema(kind, ftype) && NewObsType(kind, ftype).Ok?
    requires var obs := NewObsType(kind, ftype).value;
      && Prepare(obs, msgs, search, maxNumMsg).Ok?
      && ScanOf(msgs, obs.mtypeRe, search, maxNumMsg).numObs >= 1
    ensures var p := Prepare(NewObsType(kind, ftype).value, msgs, search, maxNumMsg).value;
      && WellFormed(p.schema)
      && exists j :: 0 <= j < |p.schema.dims| && p.schema.dims[j] == NcDimension("nobs", p.scan.numObs)
  {
    var obs := NewObsType(kind, ftype).value;
    NewObsTypeConstructed(kind, ftype);
    UsesNobs(kind, ftype);
    assert VarGroups(obs) == VarGroups(Blank(kind, ftype));
    PreparedPlan(obs, msgs, search, maxNumMsg);
  }

  /** The same for any constructed descriptor that uses the observation
      dimension. */
  lemma PreparedPlan(obs: Descriptor, msgs: seq<Message>, search: (string, string) -> bool, maxNumMsg: int)
    requires Constructed(obs) && Preparable(obs) && "nobs" in UsedDimNames(obs)
    requires Prepare(obs, msgs, search, maxNumMsg).Ok?
    requires ScanOf(msgs, obs.mtypeRe, search, maxNumMsg).numObs >= 1
    ensures var p := Prepare(obs, msgs, search, maxNumMsg).value;
      && WellFormed(p.schema)
      && exists j :: 0 <= j < |p.schema.dims| && p.schema.dims[j] == NcDimension("nobs", p.scan.numObs)
  {
    var p := Prepare(obs, msgs, search, maxNumMsg).value;
    var timed := obs.(timeUnits := p.obs.timeUnits);
    ConstructedTimeUnits(obs, timed);
    assert p.obs == SetNobs(timed, p.scan.numObs);
    SetNobsReady(timed, p.scan.numObs);
    CreateNcDatasetsWellFormed(p.obs);
    assert VarGroups(timed) == VarGroups(obs);
    assert "nobs" in UsedDimNames(timed);
    NobsDimensionOf(timed, p.scan.numObs);
  }

  /** Every pair with a schema uses the observation dimension. */
  lemma UsesNobs(kind: ObsKind, ftype: FileType)
    requires HasSchema(kind, ftype)
    ensures "nobs" in UsedDimNames(Blank(kind, ftype))
  {
    UsedDimNamesAircraftBufr();
    UsedDimNamesAircraftPrep();
    UsedDimNamesSondes();
  }

  /** A descriptor with an observation coordinate entry gets, from
      `set_nobs` and `create_nc_datasets`, a dimension sized by the count. */
  lemma NobsDimensionOf(d: Descriptor, nobs: int)
    requires Preparable(d) && forall v :: v in d.dimSpec ==> v.dimNames == [v.ncName]
    requires exists e :: e in d.dimSpec && e.ncName == "nobs"
    ensures forall v :: v in SetNobs(d, nobs).dimSpec ==> |v.dimSizes| >= 1
    ensures exists j :: 0 <= j < |CreateNcDatasets(SetNobs(d, nobs)).dims|
              && CreateNcDatasets(SetNobs(d, nobs)).dims[j] == NcDimension("nobs", nobs)
  {
    CountedHasDims(d, nobs);
    var e :| e in d.dimSpec && e.ncName == "nobs";
    var j :| 0 <= j < |d.dimSpec| && d.dimSpec[j] == e;
    assert e in AllGroups(d)[5];
    var counted := SetNobs(d, nobs);
    assert counted.dimSpec[j] == SetNobsVar(e, nobs);
    assert e.dimNames == ["nobs"];
    assert CreateNcDatasets(counted).dims[j] == NcDimension("nobs", nobs);
  }
}
