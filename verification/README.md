# BUFR conversion core, modelled in Dafny

This project models three pieces of a BUFR-to-netCDF/IODA tool chain and
proves properties of the model.

- **The `bufr2nc.py` script** (`src/bufr2nc.py`). Modelled parts:
  - the observation-type schemas: the variable tables, `init_dim_spec`, `set_nobs` and `create_nc_datasets`;
  - the date helpers `SplitDate`, `MakeDate` and `FindRefDate`;
  - the pre-scan `BfilePreprocess`, which counts the selected messages and observations and finds the earliest date;
  - the start-up checks of the main program;
  - the preparation of the netCDF plan: the time-units string, `set_nobs` and the calls that create the dimensions and variables.
- **The C++ `ResultSet`** (`src/bufr/BufrParser/Query/ResultSet.cpp`). It collects one frame of data fields per subset. `getRawValues` and `getRowsForField` flatten the frames into one dense array:
  - the largest repeat count of each level sets that level's dimension;
  - missing slots hold the missing value;
  - an optional group-by field folds leading dimensions into rows.

  The model also covers `get`, `nextDataFrame` and `unit`.
- **The C++ `QueryRunner`** (`src/bufr/BufrParser/Query/QueryRunner.cpp`). Its parts:
  - `findTargets` resolves every query name of a query set to a target in the current subset, with a cache per subset variant.
  - `collectData` fills a new frame with each target's values and repeat counts.
  - `makeFilteredData` and `_makeFilteredData` walk the repeat counts to keep only the repeats a query's index filter lists.

Module layout, one file per module:

- `wrappers.dfy` (`Wrappers`): `Option` and `Result`.
- `decimal.dfy` (`Decimal`): Python's `str()`, `int()`, `"%0.Ni"` padding and slice clamping on decimal text.
- `ref_date.dfy` (`RefDate`): `datetime` at hour resolution, `SplitDate`, `MakeDate`, `FindRefDate` and the time-units string.
- `obs_schema.dfy` (`ObsSchema`): the observation-type descriptors, `init_dim_spec` and `set_nobs`.
- `nc_layout.dfy` (`NcLayout`): `create_nc_datasets` as a plan of dimensions and variables.
- `prescan.dfy` (`PreScan`): `BfilePreprocess` over a sequence of messages.
- `bufr2nc_main.dfy` (`Bufr2nc`): the start-up checks and the preparation before conversion.
- `query_types.dfy` (`QueryTypes`): queries, targets, data fields and frames, and stand-ins for the vector helpers.
- `result_set.dfy` (`ResultSets`): `ResultSet`.
- `query_runner.dfy` (`QueryRunners`): `QueryRunner`.

Where the C++ departs from what it evidently intends (see "## Findings"),
the member named after the operation models the code as written, and a
separate member models the intended behaviour: `ResultSets.ShapeOf`,
`GetRawValues` and `Get` against `ShapeCorrected`, `GetRawValuesCorrected`
and `GetCorrected`; `PreScan.RefDateAsWritten` and `Bufr2nc.Prepare` against
`PreScan.ReferenceDate` and `Bufr2nc.PrepareCorrected`;
`QueryRunners.CollectData` and `Accumulate` take a flag,
`true` for the stored counts as written and `false` for the corrected ones.

These inputs are parameters of the model:

- the regular-expression search of the pre-scan;
- the BUFR message stream, given as a sequence of (type, date, subsets) records;
- the subset table's `getNodeForPath`;
- the node lookup table;
- `Target::setPath`.

## Model

| member | source | states |
|---|---|---|
| Decimal.Show | src/bufr2nc.py:481 | `str(n)` is a digit text without a leading zero that reads back as `n`, one character exactly for `n < 10` |
| Decimal.ShowParse | src/bufr2nc.py:481-483 | `str(int(s)) == s` for every digit text without a leading zero |
| Decimal.Pad | src/bufr2nc.py:491 | `"%0.Ni" % n` is a digit text of length `max(N, len(str(n)))` that reads back as `n` |
| Decimal.PySlice | src/bufr2nc.py:482-483 | a Python slice clamps both bounds to the text's length and keeps the characters in place |
| RefDate.NewDateTime | src/bufr2nc.py:482-483 | the `datetime` constructor succeeds exactly on a real calendar hour of years 1..9999 and raises ValueError otherwise |
| RefDate.SplitDate | src/bufr2nc.py:478-485 | whatever the integer, a successful split yields a valid calendar hour |
| RefDate.SplitDateTenDigits | src/bufr2nc.py:478-485 | on a ten-digit integer the string slices read exactly the arithmetic fields YYYY, MM, DD, HH |
| RefDate.MakeDate | src/bufr2nc.py:487-493 | the zero-padded text reads back as `year*10^6 + month*10^4 + day*100 + hour` |
| RefDate.MakeDateOfSplitDate | src/bufr2nc.py:478-493 | `MakeDate(SplitDate(d)) == d` for every valid ten-digit date |
| RefDate.SplitDateOfMakeDate | src/bufr2nc.py:478-493 | `SplitDate(MakeDate(t)) == t` for every date from year 1000 on |
| RefDate.SplitDateOfMakeDateEarlyYear | src/bufr2nc.py:478-493 | a year-999 date does not round-trip: its text loses the leading zero |
| RefDate.NextDay | src/bufr2nc.py:515-516 | adding one day keeps the hour and gives the earliest valid time at that hour after the start. It fails exactly on 9999-12-31, with OverflowError |
| RefDate.AddHours | src/bufr2nc.py:515-516 | adding under a day of hours stays on the day below 24 and otherwise is the next day at the wrapped hour |
| RefDate.FirstPositive | src/bufr2nc.py:510-511 | the first strictly positive entry: all earlier entries are not positive, and none at all when absent |
| RefDate.HourIncrement | src/bufr2nc.py:503-511 | the increment is 1..6, lands on an analysis hour, and is the smallest positive distance to one |
| RefDate.HourIncrementIsNextMultipleOfSix | src/bufr2nc.py:503-511 | hour plus increment is the next multiple of six strictly above the hour |
| RefDate.DayAfterIsNext | src/bufr2nc.py:515-516 | short of 9999-12-31, the next calendar day at the same hour is valid, at least one day later, and no later than any later valid time at that hour |
| RefDate.FindRefDate | src/bufr2nc.py:495-519 | a split error propagates; otherwise the result's hour is 00, 06, 12 or 18 |
| RefDate.NextAnalysisTime | src/bufr2nc.py:509-519 | after the split, the hour increment and the formatting give a date whose hour is 00, 06, 12 or 18 |
| RefDate.FindRefDateCases | src/bufr2nc.py:495-519 | below 18Z the result is the same day at the next multiple of six; from 18Z it is 00Z of the next day |
| RefDate.NextAnalysisTimeCases | src/bufr2nc.py:509-519 | the same two cases on a `datetime` already split |
| RefDate.FindRefDateIsLater | src/bufr2nc.py:495-519 | the reference date is strictly later than the start date |
| RefDate.FindRefDateOverflow | src/bufr2nc.py:515-517 | on a valid date, the reference date fails exactly from 9999-12-31 18Z on, and then with OverflowError |
| RefDate.FindRefDateByFields | src/bufr2nc.py:495-519 | the case split stated on the arithmetic fields of a ten-digit date |
| RefDate.FindRefDateExampleMorning | src/bufr2nc.py:495-519 | 2023010105 gives 2023010106 |
| RefDate.FindRefDateExampleMidnight | src/bufr2nc.py:495-519 | 2023010123 rolls over to 2023010200 |
| RefDate.FindRefDateExampleOnTheHour | src/bufr2nc.py:495-519 | an analysis time moves on: 2023010100 gives 2023010106 |
| RefDate.TimeUnitsFields | src/bufr2nc.py:685-688 | the units string is 34 characters: "seconds since ", then year, month, day and hour at fixed positions, then ":00 UTC" |
| RefDate.TimeUnits | src/bufr2nc.py:685-688 | the units string is 34 characters: "seconds since ", the date with `-` and a space at their places, then ":00 UTC" |
| ObsSchema.Vars | src/bufr2nc.py:254-265 | every table row becomes a spec with the row's names and type, the group's dimension names and the sizes of the constructor's size attributes |
| ObsSchema.Blank | src/bufr2nc.py:244-469 | each subclass keeps its kind and flavour with the count unset; the pattern is `UnDef` with no variables exactly for Sondes BUFR and AMSU-A prepBUFR; every other pair has header and observation variables |
| ObsSchema.DimEntries | src/bufr2nc.py:155-169 | a coordinate entry per name exactly when every name is known; otherwise exit status 3 |
| ObsSchema.NamesInUse | src/bufr2nc.py:148-152 | the names collected are exactly the union of the groups' dimension names |
| ObsSchema.Distinct | src/bufr2nc.py:148-152 | the union holds each name once and every name of the input |
| ObsSchema.InitDimSpec | src/bufr2nc.py:147-169 | succeeds exactly when every used dimension is known. On success there is one entry per used dimension with distinct names, each a UInt coordinate sized from the table. Otherwise exit status 3 |
| ObsSchema.NewObsType | src/bufr2nc.py:244-469 | the constructor is the subclass tables plus `init_dim_spec`; it fails exactly when `init_dim_spec` does |
| ObsSchema.NewObsTypeOutcomes | src/bufr2nc.py:424-469 | construction fails exactly for AMSU-A BUFR, whose `nchans` dimension is unknown |
| ObsSchema.UnknownNameFails | src/bufr2nc.py:165-167 | any used name outside the dimension table makes `init_dim_spec` fail |
| ObsSchema.SetNobsVar | src/bufr2nc.py:140-142 | exactly the sizes whose dimension name is "nobs" become the count; names, types and other sizes stay |
| ObsSchema.SetNobsGroup | src/bufr2nc.py:138-142 | every spec of a group is rewritten that way, in order |
| ObsSchema.SetNobs | src/bufr2nc.py:126-142 | the count is recorded and all six groups are rewritten; kind, pattern and units are untouched |
| ObsSchema.SetNobsKeepsSizesAgreeing | src/bufr2nc.py:126-142 | after `set_nobs` every size is still the one the dimension table gives its name |
| ObsSchema.SetNobsOverrides | src/bufr2nc.py:126-142 | `set_nobs` is idempotent and a later call overrides an earlier one |
| ObsSchema.SetNobsWellShaped | src/bufr2nc.py:126-142 | size lists stay parallel to name lists |
| ObsSchema.InitDimSpecThenSetNobs | src/bufr2nc.py:126-169 | setting the count after `init_dim_spec` equals running `init_dim_spec` with the count known |
| ObsSchema.BlankSizesAgree | src/bufr2nc.py:244-418 | the Aircraft and Sondes tables write the sizes the dimension table gives their names |
| ObsSchema.NewObsTypeSizesAgree | src/bufr2nc.py:147-169 | a constructed descriptor, coordinate entries included, agrees with the dimension table |
| ObsSchema.UsedDimNamesAircraftBufr | src/bufr2nc.py:252-284 | the Aircraft BUFR table uses exactly `nobs` and `nstring` |
| ObsSchema.UsedDimNamesAircraftPrep | src/bufr2nc.py:285-336 | the Aircraft prepBUFR table uses exactly `nobs` and `nevents` |
| ObsSchema.UsedDimNamesSondes | src/bufr2nc.py:353-415 | the Sondes prepBUFR table uses `nobs`, `nlevs` and `nevents`; Sondes BUFR uses none |
| ObsSchema.UsedDimNamesAmsua | src/bufr2nc.py:431-466 | the AMSU-A BUFR table uses `nobs` and `nchans`; AMSU-A prepBUFR uses none |
| NcLayout.StorageTypeRoundTrip | src/bufr2nc.py:188-198 | each data type has its own netCDF type code, and reading the code back gives the data type |
| NcLayout.StorageType | src/bufr2nc.py:188-198 | reading the netCDF type code back gives the table data type |
| NcLayout.ChunkSizes | src/bufr2nc.py:200-209 | a one-dimensional variable is one chunk; otherwise the first chunk size is 1 and the rest are the sizes |
| NcLayout.ChunkSizesFit | src/bufr2nc.py:200-209 | with positive sizes, every chunk size is between 1 and its dimension's size |
| NcLayout.CreateNcDatasets | src/bufr2nc.py:174-211 | one dimension per coordinate entry with its first size, then one variable per spec in group order, with the spec's name, type, dimensions and chunking |
| NcLayout.CreateNcDatasetsWellFormed | src/bufr2nc.py:174-211 | a descriptor ready to create yields distinct dimensions, and every variable dimension is declared with a chunk that fits |
| NcLayout.NewObsTypeConstructed | src/bufr2nc.py:147-169 | a constructed descriptor has one coordinate entry per used dimension and agreeing sizes |
| NcLayout.DimSpecCovers | src/bufr2nc.py:147-169 | coordinate entries name one dimension each, once, and cover every used dimension |
| NcLayout.SetNobsReady | src/bufr2nc.py:126-142 | `set_nobs` with a positive count makes a constructed descriptor ready to create |
| NcLayout.ConstructedSchemaWellFormed | src/bufr2nc.py:126-211 | every constructible observation type, once counted, yields a well-formed netCDF plan |
| NcLayout.ConstructedHasDims | src/bufr2nc.py:244-469 | every spec of a constructed descriptor names at least one dimension |
| PreScan.Matching | src/bufr2nc.py:543-546 | never more matching messages than messages in the file |
| PreScan.MatchingMembers | src/bufr2nc.py:543-546 | a message is matching exactly when the pattern finds its type |
| PreScan.SelectedIsCappedPrefix | src/bufr2nc.py:548-553 | the selection is a prefix of the matching messages: all of them when the cap is below 1, otherwise at most the cap |
| PreScan.EarliestIsMinimum | src/bufr2nc.py:541-557 | the earliest date bounds every selected date from below and is one of them, or the sentinel when nothing was selected |
| PreScan.ScanOf | src/bufr2nc.py:541-557 | no more selected than matching messages and no more matching than messages; the cap bounds the selection, and with no cap all matching messages are selected; an empty selection has no observations and the sentinel date |
| PreScan.ScanOfStep | src/bufr2nc.py:543-557 | one more message updates the counts as the loop body does |
| PreScan.CountMessage | src/bufr2nc.py:545-557 | the loop body counts a matching message and, while the cap allows, its subsets and date |
| PreScan.BfilePreprocess | src/bufr2nc.py:521-561 | the loop's counts equal the selection's subset total, its length, the number of matching messages and the earliest selected date |
| PreScan.SentinelIsNotADate | src/bufr2nc.py:541-561 | the sentinel 9999999999 has month 99: `SplitDate` and `FindRefDate` raise ValueError |
| PreScan.NoSelectionFailsAsWritten | src/bufr2nc.py:541-561 | with nothing selected, the reference date as written raises ValueError |
| PreScan.RefDateAsWritten | src/bufr2nc.py:556-561 | the sentinel date raises ValueError; with something selected it agrees with `ReferenceDate`, its errors wrapped as `BadDate` |
| PreScan.ReferenceDate | src/bufr2nc.py:556-561 | an empty selection is reported as such; otherwise the result is `FindRefDate` of the earliest date |
| PreScan.RefDateOfValidSelection | src/bufr2nc.py:526-561 | with valid ten-digit dates there is a reference date. It is strictly later than the earliest selected date, which is one of the selected dates |
| PreScan.FindRefDateBelowLimit | src/bufr2nc.py:495-519 | a valid ten-digit date before 9999-12-31 18Z has a reference date |
| Bufr2nc.StartupAsWritten | src/bufr2nc.py:592-635 | an unknown type ends in NameError; AMSU-A BUFR exits with 3; the run goes on exactly with good files and a type and flavour with a schema |
| Bufr2nc.StartupCorrected | src/bufr2nc.py:609-635 | an unknown type exits with status 2 and otherwise start-up is unchanged |
| Bufr2nc.UnknownTypeCrashesAsWritten | src/bufr2nc.py:616-621 | the type "Radar" gives NameError as written and status 2 when corrected |
| Bufr2nc.UndefinedPatterns | src/bufr2nc.py:625-632 | the pattern is `UnDef` exactly for the pairs without a schema, other than AMSU-A BUFR |
| Bufr2nc.SchemaPairs | src/bufr2nc.py:610-635 | a descriptor with a real pattern is made exactly for Aircraft and for Sondes prepBUFR |
| Bufr2nc.Prepare | src/bufr2nc.py:671-700 | as the script runs: nothing selected raises ValueError from the sentinel date. A result has something selected, and its scan, reference date, units string spelling it, count and pattern are the ones the script computes |
| Bufr2nc.PrepareCorrected | src/bufr2nc.py:671-700 | nothing selected is reported as such; with something selected the result is `Prepare`'s |
| Bufr2nc.PrepareWellFormed | src/bufr2nc.py:671-700 | for each type with a schema, the netCDF plan is well formed and its `nobs` dimension is the number of selected subsets |
| Bufr2nc.PreparedPlan | src/bufr2nc.py:685-700 | the same for any constructed descriptor that uses `nobs` |
| Bufr2nc.UsesNobs | src/bufr2nc.py:244-418 | every table with a schema uses the `nobs` dimension |
| Bufr2nc.NobsDimensionOf | src/bufr2nc.py:695-700 | after `set_nobs` the plan declares `nobs` with the count as its size |
| QueryTypes.MaxOf | src/bufr/BufrParser/Query/ResultSet.cpp:136-137 | the largest count bounds every count and is one of them |
| QueryTypes.FieldIndex | src/bufr/BufrParser/Query/ResultSet.cpp:104-108 | the first field of that name, or none when no field has it |
| ResultSets.NextDataFrame | src/bufr/BufrParser/Query/ResultSet.cpp:80-84 | one frame of default fields, one per name, is appended and earlier frames are kept |
| ResultSets.NextDataFrameShaped | src/bufr/BufrParser/Query/ResultSet.cpp:80-84 | every frame keeps one field per query name |
| ResultSets.Unit | src/bufr/BufrParser/Query/ResultSet.cpp:380-384 | the unit of the first field with that name in the first frame; no frames or no such field is an error |
| ResultSets.UnitOfNamed | src/bufr/BufrParser/Query/ResultSet.cpp:380-384 | a name some field of the first frame carries always has a unit: that of the first field with the name |
| ResultSets.ElementTypeOf | src/bufr/BufrParser/Query/ResultSet.cpp:42-55 | "CCITT IA5" selects strings; "CODE TABLE", "FLAG TABLE" and "NUMERIC" select `uint32_t`; every other unit selects `float` |
| ResultSets.TrimRight | src/bufr/BufrParser/Query/ResultSet.cpp:63-71 | a prefix that ends in a non-space, with only white space cut off |
| ResultSets.TrimRightUnique | src/bufr/BufrParser/Query/ResultSet.cpp:63-71 | that prefix is the only one with both properties |
| ResultSets.TrimRightIdempotent | src/bufr/BufrParser/Query/ResultSet.cpp:63-71 | trimming twice is trimming once |
| ResultSets.DimsListLength | src/bufr/BufrParser/Query/ResultSet.cpp:126-139 | the dimension list is as long as the deepest target field |
| ResultSets.DimsListBound | src/bufr/BufrParser/Query/ResultSet.cpp:126-139 | every count of every frame is within its level's dimension |
| ResultSets.DimsListAttained | src/bufr/BufrParser/Query/ResultSet.cpp:126-139 | each positive dimension is some frame's count at that level |
| ResultSets.FoldStep | src/bufr/BufrParser/Query/ResultSet.cpp:117-171 | one frame merges its counts into the sizes per level; without a group-by the depth and element count stay; with one the depth becomes the larger of the two and the element count never drops; the only failure is a deeper group-by field without dimension paths |
| ResultSets.FoldFrames | src/bufr/BufrParser/Query/ResultSet.cpp:117-172 | the pass fails only with a group-by field without paths, and its depth is at least every frame's group-by depth |
| ResultSets.FoldFramesGroupBy | src/bufr/BufrParser/Query/ResultSet.cpp:141-160 | when every group-by field has paths the pass succeeds, and its depth is 0 or some frame's group-by depth |
| ResultSets.FoldFramesDimsList | src/bufr/BufrParser/Query/ResultSet.cpp:117-172 | the pass over the frames computes the per-level maxima of the target field's counts; without a group-by it cannot fail and the depth stays 0 |
| ResultSets.ShapeOf | src/bufr/BufrParser/Query/ResultSet.cpp:174-234 | as written: every size 0 becomes 1; a group-by no deeper than the target folds the first `groupbyIdx` sizes into one, keeps the rest and the product, and shifts the export dimensions; a deeper group-by gives the single size `totalGroupbyElements`, which may be 0, and exports only dimension 0 |
| ResultSets.ShapeCorrected | src/bufr/BufrParser/Query/ResultSet.cpp:176-196 | all sizes are at least 1 and the product is kept; it is `ShapeOf` unless the group-by is deeper than the target, where the single size is at least 1 |
| ResultSets.GroupedExports | src/bufr/BufrParser/Query/ResultSet.cpp:211-228 | the shifted export dimensions that stay non-negative, with 0 put first: exactly 0 and every `d - (groupbyIdx - 1)` that is non-negative |
| ResultSets.GroupedShape | src/bufr/BufrParser/Query/ResultSet.cpp:198-209 | folding the first `g` sizes into one keeps them positive and keeps their product |
| ResultSets.LevelInserts | src/bufr/BufrParser/Query/ResultSet.cpp:301-310 | an entry with `c` repeats leaves `(dims[r]-c)` inner blocks empty |
| ResultSets.Inserts | src/bufr/BufrParser/Query/ResultSet.cpp:301-310 | one insert list per dimension: from the counts where the field has the level, `{0}` elsewhere |
| ResultSets.CountsWithinDims | src/bufr/BufrParser/Query/ResultSet.cpp:301-310 | counts within the sizes give no negative insert |
| ResultSets.InflateIndices | src/bufr/BufrParser/Query/ResultSet.cpp:312-333 | the inflation loops compute the composed shifts, and the indices stay strictly increasing |
| ResultSets.InflateLevel | src/bufr/BufrParser/Query/ResultSet.cpp:315-332 | the middle loop applies the level's shifts in entry order |
| ResultSets.InflateEntry | src/bufr/BufrParser/Query/ResultSet.cpp:317-331 | an entry with empty slots shifts every index past its last filled position |
| ResultSets.ShiftIndices | src/bufr/BufrParser/Query/ResultSet.cpp:324-330 | every index above the position moves up by the insert count |
| ResultSets.InflatedIndicesOrdered | src/bufr/BufrParser/Query/ResultSet.cpp:312-333 | value `i` lands at position `i` or later, in order |
| ResultSets.Scatter | src/bufr/BufrParser/Query/ResultSet.cpp:335-339 | succeeds exactly when every index is in range, and keeps the buffer's length |
| ResultSets.ScatterKeeps | src/bufr/BufrParser/Query/ResultSet.cpp:335-339 | a slot no index names keeps its value |
| ResultSets.ScatterPlaces | src/bufr/BufrParser/Query/ResultSet.cpp:335-339 | the last write to a slot wins |
| ResultSets.ScatterOrdered | src/bufr/BufrParser/Query/ResultSet.cpp:335-339 | with increasing indices, each value sits at its index and all other slots are unchanged |
| ResultSets.Output | src/bufr/BufrParser/Query/ResultSet.cpp:301-339 | the buffer has `product(dims)` slots. A field without values gives the all-missing buffer whatever its counts; a field with values and a negative insert is an error |
| ResultSets.OutputPlacesValues | src/bufr/BufrParser/Query/ResultSet.cpp:301-339 | the buffer is built exactly when the last index fits. Value `i` then sits at its inflated index and every other slot is missing |
| ResultSets.MaxCounts | src/bufr/BufrParser/Query/ResultSet.cpp:285-299 | the largest number of entries of any level |
| ResultSets.GroupRows | src/bufr/BufrParser/Query/ResultSet.cpp:356-371 | `product(dims[..g])` rows of `product(dims[g..])` values that rejoin into the buffer |
| ResultSets.GroupRowsSlices | src/bufr/BufrParser/Query/ResultSet.cpp:356-371 | row `i` is the `i`-th stretch of consecutive values |
| ResultSets.CollapsedRows | src/bufr/BufrParser/Query/ResultSet.cpp:344-355 | `numRows * maxCounts` one-value rows of the missing value. The first `numRows` rows are overwritten with the buffer's first value. The result is an error exactly when there is such a row to overwrite but no row was made (`maxCounts` 0) |
| ResultSets.GetRowsForField | src/bufr/BufrParser/Query/ResultSet.cpp:280-378 | one row without a group-by, grouped rows within the field's depth, collapsed rows deeper |
| ResultSets.WriteRowsUniform | src/bufr/BufrParser/Query/ResultSet.cpp:258-266 | rows of one width land one after the other from the frame's base |
| ResultSets.WriteRows | src/bufr/BufrParser/Query/ResultSet.cpp:258-266 | the write loop keeps the buffer's length and fails only on a row that would run past the end |
| ResultSets.FillFrame | src/bufr/BufrParser/Query/ResultSet.cpp:247-267 | one frame: an earlier failure passes through, a missing field leaves the buffer as it is, and a write keeps the length |
| ResultSets.FillFrames | src/bufr/BufrParser/Query/ResultSet.cpp:245-268 | the pass over the frames keeps the buffer's length |
| ResultSets.FillFramesBlocks | src/bufr/BufrParser/Query/ResultSet.cpp:245-268 | each frame's buffer is written whole as its block; a missing field leaves missing values |
| ResultSets.Slice | src/bufr/BufrParser/Query/ResultSet.cpp:272-275 | the sizes at the exported indices, in order, when all exist |
| ResultSets.OutputDims | src/bufr/BufrParser/Query/ResultSet.cpp:270-275 | one frame keeps the sizes; several are cut to the export dimensions, which succeeds exactly when all of them exist |
| ResultSets.GroupByIndex | src/bufr/BufrParser/Query/ResultSet.cpp:104-109 | no group-by for an empty name, else the field's index or an unknown-field error |
| ResultSets.LayoutOf | src/bufr/BufrParser/Query/ResultSet.cpp:100-172 | finds the target and group-by fields in the first frame and folds the dimensions over all frames |
| ResultSets.RawValuesFor | src/bufr/BufrParser/Query/ResultSet.cpp:236-275 | `frames * product(dims)` values and the fold's dimension paths. The dimensions are the shape's for one frame and cut to the export dimensions for several |
| ResultSets.GetRawValues | src/bufr/BufrParser/Query/ResultSet.cpp:86-276 | as written: no frames or an unknown field is an error; the data has `frames * product(dims)` values for the dimensions `ShapeOf` computes |
| ResultSets.GetRawValuesCorrected | src/bufr/BufrParser/Query/ResultSet.cpp:176-196 | the same with `ShapeCorrected`, and equal to `GetRawValues` unless the group-by is deeper than the target |
| ResultSets.GetRawValuesBlocks | src/bufr/BufrParser/Query/ResultSet.cpp:86-276 | for a group-by no deeper than the target, the data is every frame's dense buffer in frame order. It is built exactly when there are dimensions, every present frame fits and the export dimensions exist |
| ResultSets.TrimPaths | src/bufr/BufrParser/Query/ResultSet.cpp:62-72 | one trimmed path per dimension, each a prefix with only white space cut off |
| ResultSets.Get | src/bufr/BufrParser/Query/ResultSet.cpp:28-77 | an error of the raw values is passed on; otherwise a result exactly when every dimension has a path, with the raw values and dimensions, both field names, the trimmed paths, and the element type the unit of the first field of that name selects |
| ResultSets.GetCorrected | src/bufr/BufrParser/Query/ResultSet.cpp:28-77 | the same over the corrected raw values, and equal to `Get` unless the group-by is deeper than the target |
| ResultSets.ZeroGroupByLayout | src/bufr/BufrParser/Query/ResultSet.cpp:141-160 | a group-by level without repeats records zero group-by elements |
| ResultSets.ZeroGroupByAsWritten | src/bufr/BufrParser/Query/ResultSet.cpp:141-196 | as written, the collapsed size is 0 and the target's one value has nowhere to go |
| ResultSets.ZeroGroupByMissing | src/bufr/BufrParser/Query/ResultSet.cpp:188-268 | as written, the same frame with the target field missing gives no values and the one size 0 |
| ResultSets.ZeroGroupByNoValues | src/bufr/BufrParser/Query/ResultSet.cpp:188-339 | as written, the same frame with the target present but holding no values has a negative insert, places nothing, and gives no values and the one size 0 |
| ResultSets.ZeroGroupByCorrected | src/bufr/BufrParser/Query/ResultSet.cpp:176-196 | with the size kept at 1, the value becomes the one row |
| QueryRunners.Hits | src/bufr/BufrParser/Query/QueryRunner.cpp:296-304 | at most `n` of the repeats `1..n` are listed, and none by an empty filter |
| QueryRunners.FilteredCounts | src/bufr/BufrParser/Query/QueryRunner.cpp:294-304 | one surviving count per entry, never above the entry's count |
| QueryRunners.Walk | src/bufr/BufrParser/Query/QueryRunner.cpp:253-311 | `_makeFilteredData` at one level never moves the source offset back; `WalkSpec` states what it passes and keeps |
| QueryRunners.Repeat | src/bufr/BufrParser/Query/QueryRunner.cpp:284-291 | the loop over an unfiltered level never moves the offset back |
| QueryRunners.Entries | src/bufr/BufrParser/Query/QueryRunner.cpp:292-310 | the loop over a filtered level's entries never moves the offset back |
| QueryRunners.Counting | src/bufr/BufrParser/Query/QueryRunner.cpp:296-308 | the loop over one entry's repeats never moves the offset back |
| QueryRunners.WalkSpec | src/bufr/BufrParser/Query/QueryRunner.cpp:253-311 | the walk passes exactly `Leaves` source positions. The kept positions are in that span in increasing order. There are `KeptLeaves` of them, or none when skipping |
| QueryRunners.RepeatSpec | src/bufr/BufrParser/Query/QueryRunner.cpp:284-291 | an unfiltered level walks its subtree once per entry |
| QueryRunners.EntriesSpec | src/bufr/BufrParser/Query/QueryRunner.cpp:292-310 | a filtered level walks a subtree per repeat of each entry and keeps the listed repeats |
| QueryRunners.CountingSpec | src/bufr/BufrParser/Query/QueryRunner.cpp:296-308 | the repeats `1..n` of one entry pass `n` subtrees and keep the `Hits` listed ones |
| QueryRunners.WalkUnfiltered | src/bufr/BufrParser/Query/QueryRunner.cpp:284-291 | without filters the walk keeps every position it passes |
| QueryRunners.MakeFilteredData | src/bufr/BufrParser/Query/QueryRunner.cpp:239-251 | succeeds exactly when the last kept position is in range. The values at the kept positions come out in order, `KeptLeaves` of them |
| QueryRunners.FilteredDataUnfiltered | src/bufr/BufrParser/Query/QueryRunner.cpp:239-291 | without filters the result is the first `Leaves` source values, or a read out of range |
| QueryRunners.FilteredCountsAsWritten | src/bufr/BufrParser/Query/QueryRunner.cpp:205-215 | every entry of a filtered level stores the filter's size |
| QueryRunners.StoredCounts | src/bufr/BufrParser/Query/QueryRunner.cpp:173-219 | one count list per level, `{1}` for the subset level |
| QueryRunners.StoredCountsLevels | src/bufr/BufrParser/Query/QueryRunner.cpp:181-219 | an unfiltered level stores the lookup counts. A filtered one stores, per entry, the filter size as written or the number of listed repeats when corrected |
| QueryRunners.WalkCounts | src/bufr/BufrParser/Query/QueryRunner.cpp:195-218 | the walk's counts are the original counts at filtered levels and `{1}` elsewhere |
| QueryRunners.WalkFilters | src/bufr/BufrParser/Query/QueryRunner.cpp:199-203 | the walk's filters are each level's filter, none at the subset level |
| QueryRunners.CollectField | src/bufr/BufrParser/Query/QueryRunner.cpp:152-235 | a target with no node gets one missing value (an empty string for a long string) and counts `[[1]]`. An unfiltered target gets its node's values. A filtered one gets its node's values at the walk's kept positions |
| QueryRunners.CollectFieldCountsData | src/bufr/BufrParser/Query/QueryRunner.cpp:205-233 | with corrected counts, a filtered field holds exactly as many values as its counts describe |
| QueryRunners.StoredCountsMismatch | src/bufr/BufrParser/Query/QueryRunner.cpp:205-215 | as written, one entry repeated twice under the filter {1,2,3} stores count 3 with 2 values |
| QueryRunners.CollectFields | src/bufr/BufrParser/Query/QueryRunner.cpp:152-236 | one field per target, in order, exactly when every field can be filled, with the stored counts the flag selects |
| QueryRunners.CollectData | src/bufr/BufrParser/Query/QueryRunner.cpp:147-237 | a new frame is added with field `i` filled from target `i`, a found target carrying the stored counts the flag selects (`true`: as written), and the remaining fields at their defaults. Earlier frames are untouched |
| QueryRunners.CollectDataFilteredCounts | src/bufr/BufrParser/Query/QueryRunner.cpp:205-215 | in the collected frame, each entry of a filtered level stores the filter's size as written, or the number of listed repeats when corrected |
| QueryRunners.FindQuery | src/bufr/BufrParser/Query/QueryRunner.cpp:58-70 | the first query that applies to the subset and leads to a node. All earlier ones do not; with none, no query does |
| QueryRunners.TargetPath | src/bufr/BufrParser/Query/QueryRunner.cpp:112-133 | the subset at the root, then one component per query component with its node |
| QueryRunners.MakeTarget | src/bufr/BufrParser/Query/QueryRunner.cpp:72-140 | unresolved: node 0, the first query's text, export dimension 0. Resolved: the query's text, the node and its type. Also the path of one more component than the query, the long-string id "mnemonic#count", and the layout from `setPath` |
| QueryRunners.FindTargets | src/bufr/BufrParser/Query/QueryRunner.cpp:43-145 | a cached variant returns its list; otherwise one target per name is made and cached |
| QueryRunners.FindTargetsTwice | src/bufr/BufrParser/Query/QueryRunner.cpp:43-50 | asking again for the same variant returns the same targets and cache |
| QueryRunners.FindTargetsValid | src/bufr/BufrParser/Query/QueryRunner.cpp:43-145 | the cache stays valid and holds the returned list for the variant |
| QueryRunners.Accumulate | src/bufr/BufrParser/Query/QueryRunner.cpp:35-41 | the variant is cached and one frame is added, whose field `i` is named after query name `i`. Earlier frames are untouched |

## Left out

- I/O is not modelled. This covers `ncepbufr` reading, the netCDF `Dataset` calls, `os.path.isfile`, `argparse`, printing and logging. The message stream, the file-existence answers and the parsed arguments are inputs instead.
- The `re.search` matcher is not modelled: message selection takes any search function.
- The conversion methods `convert`, `convert_header` and `convert_obs` only print, so they are not modelled. Neither is the commented-out block after the main program.
- The `created` flag of the spec entries is never read and is not modelled.
- `setData`'s conversion of values to `float`, `uint32_t` or `std::string` is not modelled. Values are copied as numbers or texts, and `get` records only which element type the unit selects.
- SubsetTable.h, NodeLookupTable.h, Target.h (`setPath`), DataFrame.h, VectorMath.h and Constants.h are not part of this model. The table lookups, the node lookup table and `setPath` are parameters. `product`, `sum`, `max`, `slice` and `fieldIndexForNodeNamed` are restated from their use.
- The empty target's one dimension path is taken to be the text of a default `Query`, written here as the empty string.
- The C++ `int`/`size_t` arithmetic is unbounded in the model, and repeat counts are natural numbers.
- Constants.h is not part of this model, so its `MissingValue` and the `10.0e10` literal that fills `getRowsForField`'s buffer (ResultSet.cpp:335) are taken to be one sentinel, `MissingValue`. If they differed, the slots left empty by `getRowsForField` would keep the literal, while padded rows and frames hold `MissingValue`.
- The hdf5 and GSI converters and `NcepDataProvider` are not modelled. They are outside the three cores.
- Nested filtered levels are not modelled as a separate case. `_makeFilteredData` visits every entry of a level's whole count list below each parent, and the model does the same. No property beyond that is claimed, because the lookup table's count layout is not part of this model.
- ObsSchema.InitDimSpec: the entries come out in first-use order. Python iterates a `set` here, so the contract speaks only of the names and sizes, not the order.
- ResultSets.Output: a negative insert count on a field with values is reported as an error. The C++ converts it to a huge `size_t`, adds it to indices modulo 2^64 and writes past the buffer. Through `getRawValues` this happens only for a collapsed size of 0, where the buffer is empty and every write is out of range. The wrapped index arithmetic is not modelled. A field without values writes nothing, as in the C++.
- ResultSets.Scatter: an index out of range is an error where the C++ behaviour is undefined.
- ResultSets.Unit: no frames or an unknown name is an error where the C++ reads past the vector.
- ResultSets.TrimPaths: fewer paths than dimensions is an error where the C++ reads past the vector.
- QueryRunners.MakeFilteredData: a read past the source values is reported as `ReadOutOfRange`. It is undefined behaviour in the C++.
- QueryRunners.CollectField: the same read out of range is reported as an error.
- QueryRunners.Walk: its own contract says only that the offset never moves back. The positions passed and kept are stated by `WalkSpec`.
- QueryRunners.Repeat: the same; `RepeatSpec` states the rest.
- QueryRunners.Entries: the same; `EntriesSpec` states the rest.
- QueryRunners.Counting: the same; `CountingSpec` states the rest.
- ResultSets.WriteRows: its own contract states the length and the one failure. Where the rows land is stated by `WriteRowsUniform`.
- ResultSets.FillFrame: the same; `FillFramesBlocks` states where each frame's rows land.
- ResultSets.FillFrames: the same; `FillFramesBlocks` states the contents.
- QueryRunners.TargetPath: the root component's fixed repeat count keeps its default of 0.

## Findings

| source | as written | input that shows it | evidently intended | confidence | as-written member | corrected member |
|---|---|---|---|---|---|---|
| src/bufr2nc.py:616-621 | an unknown observation type sets the bad-argument flag but leaves `Obs` unbound. The debug print on the next line raises NameError | observation type `Radar` | exit with status 2 after the error message, like the other bad arguments | high, not executed | Bufr2nc.UnknownTypeCrashesAsWritten | Bufr2nc.StartupCorrected |
| src/bufr2nc.py:541-561 | with no selected message, `FindRefDate` is called on the sentinel 9999999999. Its month field 99 makes `datetime` raise ValueError | a BUFR file with no message of the observation type's pattern | report that nothing was selected | high, not executed | PreScan.NoSelectionFailsAsWritten | PreScan.ReferenceDate |
| src/bufr/BufrParser/Query/ResultSet.cpp:150-196 | a group-by field deeper than the target, with a level of no repeats, makes the collapsed size 0. That contradicts the "at least 1 element" rule, and the target's value is written out of range | one frame: target `t` with one value at the subset level; group-by `g` with counts `[[1],[0]]` | a collapsed size of at least 1, holding the value | medium, not executed | ResultSets.ZeroGroupByAsWritten | ResultSets.ZeroGroupByCorrected |
| src/bufr/BufrParser/Query/QueryRunner.cpp:205-215 | a filtered level stores `max(filter.size(), 1)` for every entry, whatever the entry's repeat count. The stored counts then disagree with the filtered values | one entry repeated twice under the filter `{1,2,3}`: count 3 is stored, 2 values are kept | the number of repeats `1..n` the filter lists | medium, not executed | QueryRunners.StoredCountsMismatch | QueryRunners.CollectFieldCountsData |
