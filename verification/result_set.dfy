/** `ResultSet` of the BUFR query code: the frames collected per subset, and
    their flattening into one dense row-major array per field. The
    dimensions come from the largest repeat count seen at each level, a
    group-by field can fold the leading levels into rows, each frame's
    sparse values are spread to their positions in the dense layout, and
    every position no frame fills keeps the missing value. */
module ResultSets {
  import opened Wrappers
  import opened QueryTypes

  /** The query names and the frames collected so far, one per subset. */
  datatype ResultSet = ResultSet(names: seq<string>, frames: seq<DataFrame>)

  /** What stops the flattening; the C++ code has undefined behaviour or an
      exception at each of these points. */
  datatype QueryError =
    | NoFrames                 // `dataFrames_.front()` or `dims[0]` of an empty result set
    | UnknownField(name: string)
    | NoDimensions             // `dims[0]` of an empty dimension list
    | EmptyGroupByPaths        // `dimPaths.back()` of a group-by field without paths
    | NegativeInsert           // a negative insertion count converted to `size_t`
    | WriteOutOfRange          // a write past the end of a buffer
    | GroupByBeyondDims        // `dims.begin() + groupbyIdx` past the end
    | ExportDimOutOfRange      // `slice` with an index past the end
    | MissingPath              // `dimPaths[dimIdx]` past the end

  /** Every frame has one field per query name. */
  predicate FramesShaped(rs: ResultSet) {
    forall j :: 0 <= j < |rs.frames| ==> |rs.frames[j].fields| == |rs.names|
  }

  // ---------------------------------------------------------------------------
  // nextDataFrame and unit

  /** `nextDataFrame`: a new frame with a default field per query name,
      appended after the existing frames; the caller fills it in place. */
  function NextDataFrame(rs: ResultSet): (r: ResultSet)
    ensures r.names == rs.names
    ensures |r.frames| == |rs.frames| + 1 && r.frames[..|rs.frames|] == rs.frames
    ensures |r.frames[|rs.frames|].fields| == |rs.names|
    ensures forall i :: 0 <= i < |rs.names| ==> r.frames[|rs.frames|].fields[i] == DefaultField
  {
    rs.(frames := rs.frames + [DataFrame(seq(|rs.names|, _ => DefaultField))])
  }

  /** Adding a frame keeps every frame at one field per query name. */
  lemma NextDataFrameShaped(rs: ResultSet)
    requires FramesShaped(rs)
    ensures FramesShaped(NextDataFrame(rs))
  {
    var r := NextDataFrame(rs);
    forall j | 0 <= j < |r.frames| ensures |r.frames[j].fields| == |r.names| {
      if j < |rs.frames| {
        assert r.frames[j] == r.frames[..|rs.frames|][j];
      }
    }
  }

  /** Field `i` is the first of `fields` with the given name. */
  predicate FirstNamed(fields: seq<DataField>, name: string, i: nat) {
    i < |fields| && FieldName(fields[i]) == name && forall j :: 0 <= j < i ==> FieldName(fields[j]) != name
  }

  /** `unit`: the unit of the first field of the first frame with the
      given name. */
  function Unit(rs: ResultSet, fieldName: string): (r: Result<string, QueryError>)
    ensures rs.frames == [] ==> r == Err(NoFrames)
    ensures rs.frames != [] && FieldIndex(rs.frames[0], fieldName).None? ==> r == Err(UnknownField(fieldName))
    ensures rs.frames != [] ==> forall i: nat :: FirstNamed(rs.frames[0].fields, fieldName, i) ==>
                                  r == Ok(FieldUnit(rs.frames[0].fields[i]))
  {
    if rs.frames == [] then Err(NoFrames)
    else
      FirstNamedIndex(rs.frames[0], fieldName);
      match FieldIndex(rs.frames[0], fieldName)
      case None => Err(UnknownField(fieldName))
      case Some(i) => Ok(FieldUnit(rs.frames[0].fields[i]))
  }

  /** The first field with a name is the one `fieldIndexForNodeNamed`
      finds. */
  lemma FirstNamedIndex(frame: DataFrame, name: string)
    ensures forall i: nat :: FirstNamed(frame.fields, name, i) ==> FieldIndex(frame, name) == Some(i)
  {
    forall i: nat | FirstNamed(frame.fields, name, i) ensures FieldIndex(frame, name) == Some(i) {
      var r := FieldIndex(frame, name);
      assert FieldName(frame.fields[i]) == name;
    }
  }

  /** A name carried by some field of the first frame always has a unit:
      the unit of its first field. */
  lemma UnitOfNamed(rs: ResultSet, fieldName: string, k: nat)
    requires rs.frames != [] && k < |rs.frames[0].fields| && FieldName(rs.frames[0].fields[k]) == fieldName
    ensures Unit(rs, fieldName).Ok?
    ensures exists i: nat :: i <= k && FirstNamed(rs.frames[0].fields, fieldName, i) &&
                        Unit(rs, fieldName) == Ok(FieldUnit(rs.frames[0].fields[i]))
  {
    var i := FieldIndex(rs.frames[0], fieldName).value;
    assert FirstNamed(rs.frames[0].fields, fieldName, i);
  }

  // ---------------------------------------------------------------------------
  // The element type of `get`

  datatype ElementType = StringElement | UInt32Element | FloatElement

  function ElementTypeOf(unit: string): (e: ElementType)
    ensures e == StringElement <==> unit == "CCITT IA5"
    ensures e == UInt32Element <==> unit in ["CODE TABLE", "FLAG TABLE", "NUMERIC"]
    ensures e == FloatElement <==> unit !in ["CCITT IA5", "CODE TABLE", "FLAG TABLE", "NUMERIC"]
  {
    if unit == "CCITT IA5" then StringElement
    else if unit == "CODE TABLE" || unit == "FLAG TABLE" || unit == "NUMERIC" then UInt32Element
    else FloatElement
  }

  // ---------------------------------------------------------------------------
  // Trimming dimension paths

  /** The characters `get` trims: space, tab, newline, carriage return, form
      feed and vertical tab. */
  predicate IsSpace(c: char) {
    c == ' ' || c == '\t' || c == '\n' || c == '\r' || c as int == 12 || c as int == 11
  }

  /** `s.erase(s.find_last_not_of(ws) + 1)`: drop the trailing white space
      (all of `s` when it is only white space). */
  function TrimRight(s: string): (t: string)
    ensures t <= s
    ensures t == [] || !IsSpace(t[|t| - 1])
    ensures forall i :: |t| <= i < |s| ==> IsSpace(s[i])
  {
    if s == [] || !IsSpace(s[|s| - 1]) then s else TrimRight(s[..|s| - 1])
  }

  /** The trimmed text is the only prefix that ends in a non-space and leaves
      only white space behind. */
  lemma TrimRightUnique(s: string, t: string)
    requires t <= s && (t == [] || !IsSpace(t[|t| - 1]))
    requires forall i :: |t| <= i < |s| ==> IsSpace(s[i])
    ensures TrimRight(s) == t
  {
    var u := TrimRight(s);
    TrimmedNoLonger(s, t, u);
    TrimmedNoLonger(s, u, t);
    assert u == s[..|u|] && t == s[..|t|];
  }

  /** A prefix ending in a non-space is no longer than a prefix that leaves
      only white space behind. */
  lemma TrimmedNoLonger(s: string, a: string, b: string)
    requires a <= s && (a == [] || !IsSpace(a[|a| - 1]))
    requires forall i :: |b| <= i < |s| ==> IsSpace(s[i])
    ensures |a| <= |b|
  {
    if a != [] {
      assert a[|a| - 1] == s[|a| - 1];
    }
  }

  /** Trimming twice trims no more than trimming once. */
  lemma TrimRightIdempotent(s: string)
    ensures TrimRight(TrimRight(s)) == TrimRight(s)
  {
    var t := TrimRight(s);
    TrimRightUnique(t, t);
  }

  // ---------------------------------------------------------------------------
  // Dimensions: the largest count per level over the frames

  /** A size list read past its end gives 0, as `resize(n, 0)` pads it. */
  function At(d: seq<nat>, i: nat): nat {
    if i < |d| then d[i] else 0
  }

  /** `max(seqCounts[i])` when level `i` is present and non-empty, else 0. */
  function LevelMax(counts: seq<seq<nat>>, i: nat): nat {
    if i < |counts| && |counts[i]| > 0 then MaxOf(counts[i]) else 0
  }

  /** One frame's update of `dimsList`: grow it to the field's depth and take
      the larger of the old size and the level's largest count. */
  function MergeCounts(dimsList: seq<nat>, counts: seq<seq<nat>>): seq<nat> {
    seq(MaxNat(|dimsList|, |counts|), i requires 0 <= i => MaxNat(At(dimsList, i), LevelMax(counts, i)))
  }

  /** `dimsList` after the given target fields, one per frame. */
  function DimsList(ts: seq<DataField>): seq<nat> {
    if ts == [] then [] else MergeCounts(DimsList(ts[..|ts| - 1]), ts[|ts| - 1].seqCounts)
  }

  /** The list is as long as the deepest field's counts. */
  lemma {:induction false} DimsListLength(ts: seq<DataField>)
    ensures forall j :: 0 <= j < |ts| ==> |ts[j].seqCounts| <= |DimsList(ts)|
    ensures |DimsList(ts)| == 0 || exists j :: 0 <= j < |ts| && |ts[j].seqCounts| == |DimsList(ts)|
  {
    if ts != [] {
      var front := ts[..|ts| - 1];
      DimsListLength(front);
      assert forall j :: 0 <= j < |front| ==> front[j] == ts[j];
    }
  }

  /** Every count at a level is at most the level's size. */
  lemma {:induction false} DimsListBound(ts: seq<DataField>, j: nat, i: nat, k: nat)
    requires j < |ts| && i < |ts[j].seqCounts| && k < |ts[j].seqCounts[i]|
    ensures i < |DimsList(ts)| && ts[j].seqCounts[i][k] <= DimsList(ts)[i]
  {
    var front := ts[..|ts| - 1];
    var prev := DimsList(front);
    var last := ts[|ts| - 1].seqCounts;
    assert |DimsList(ts)| == MaxNat(|prev|, |last|);
    if j < |ts| - 1 {
      assert front[j] == ts[j];
      DimsListBound(front, j, i, k);
      assert ts[j].seqCounts[i][k] <= At(prev, i);
    } else {
      assert ts[j].seqCounts[i][k] <= LevelMax(last, i);
    }
    assert DimsList(ts)[i] == MaxNat(At(prev, i), LevelMax(last, i));
  }

  /** Every non-zero size is a count some frame has at that level. */
  lemma {:induction false} DimsListAttained(ts: seq<DataField>)
    ensures forall i :: 0 <= i < |DimsList(ts)| && DimsList(ts)[i] != 0 ==>
              exists j, k :: 0 <= j < |ts| && i < |ts[j].seqCounts| && 0 <= k < |ts[j].seqCounts[i]|
                && ts[j].seqCounts[i][k] == DimsList(ts)[i]
  {
    if ts != [] {
      var front := ts[..|ts| - 1];
      var prev := DimsList(front);
      var last := ts[|ts| - 1].seqCounts;
      DimsListAttained(front);
      forall i | 0 <= i < |DimsList(ts)| && DimsList(ts)[i] != 0
        ensures exists j, k :: 0 <= j < |ts| && i < |ts[j].seqCounts| && 0 <= k < |ts[j].seqCounts[i]|
                  && ts[j].seqCounts[i][k] == DimsList(ts)[i]
      {
        if At(prev, i) >= LevelMax(last, i) {
          var j, k :| 0 <= j < |front| && i < |front[j].seqCounts| && 0 <= k < |front[j].seqCounts[i]|
                       && front[j].seqCounts[i][k] == prev[i];
          assert front[j] == ts[j];
        } else {
          var k :| 0 <= k < |last[i]| && last[i][k] == MaxOf(last[i]);
          assert ts[|ts| - 1].seqCounts[i][k] == DimsList(ts)[i];
        }
      }
    }
  }

  // ---------------------------------------------------------------------------
  // The pass over the frames

  /** What the pass over the frames keeps: the sizes per level, the dimension
      paths and export dimensions of the result, the group-by depth, and the
      largest number of group-by elements in a frame. */
  datatype DimsFold = DimsFold(
    dimsList: seq<nat>,
    dimPaths: seq<string>,
    exportDims: seq<int>,
    groupbyIdx: nat,
    totalGroupby: nat)

  /** Every frame has a field at `idx`. */
  predicate HasField(frames: seq<DataFrame>, idx: nat) {
    forall j :: 0 <= j < |frames| ==> idx < |frames[j].fields|
  }

  /** The field at `idx` of every frame, in frame order. */
  function Targets(frames: seq<DataFrame>, idx: nat): (ts: seq<DataField>)
    requires HasField(frames, idx)
    ensures |ts| == |frames| && forall j :: 0 <= j < |frames| ==> ts[j] == frames[j].fields[idx]
  {
    seq(|frames|, j requires 0 <= j < |frames| => frames[j].fields[idx])
  }

  /** The product of the largest count of every non-empty level. */
  function ProductOfMaxes(counts: seq<seq<nat>>): nat {
    if counts == [] then 1
    else (if |counts[0]| > 0 then MaxOf(counts[0]) else 1) * ProductOfMaxes(counts[1..])
  }

  /** The target's paths from the group-by field's last export dimension on.
      The start index is `exportDims.size() - 1` in `size_t`, which wraps
      past every path when the group-by field exports nothing. */
  function GroupedPaths(paths: seq<string>, exportCount: nat): seq<string> {
    if exportCount == 0 || exportCount - 1 > |paths| then [] else paths[exportCount - 1..]
  }

  /** The state before the first frame: paths and export dimensions of the
      first frame's target field. */
  function InitialFold(t: DataField): DimsFold {
    DimsFold([], FieldDimPaths(t), FieldExportDims(t), 0, 0)
  }

  /** One frame of the pass, given its target field and group-by field. */
  function FoldStep(acc: DimsFold, t: DataField, g: Option<DataField>): (r: Result<DimsFold, QueryError>)
    ensures r.Ok? ==> r.value.dimsList == MergeCounts(acc.dimsList, t.seqCounts)
    ensures g.None? ==> r.Ok? && r.value.groupbyIdx == acc.groupbyIdx && r.value.totalGroupby == acc.totalGroupby
    ensures g.Some? && r.Ok? ==> r.value.groupbyIdx == MaxNat(acc.groupbyIdx, |g.value.seqCounts|)
    ensures r.Ok? ==> r.value.totalGroupby >= acc.totalGroupby
    ensures r.Err? ==> r == Err(EmptyGroupByPaths) && g.Some? && FieldDimPaths(g.value) == []
    ensures g.Some? && FieldDimPaths(g.value) != [] ==> r.Ok?
  {
    var longer := |FieldDimPaths(t)| > 0 && |acc.dimPaths| < |FieldDimPaths(t)|;
    var dimPaths := if longer then FieldDimPaths(t) else acc.dimPaths;
    var exportDims := if longer then FieldExportDims(t) else acc.exportDims;
    var dimsList := MergeCounts(acc.dimsList, t.seqCounts);
    match g
    case None => Ok(DimsFold(dimsList, dimPaths, exportDims, acc.groupbyIdx, acc.totalGroupby))
    case Some(gf) =>
      var gi := MaxNat(acc.groupbyIdx, |gf.seqCounts|);
      if gi > |dimsList| then
        if FieldDimPaths(gf) == [] then Err(EmptyGroupByPaths)
        else Ok(DimsFold(dimsList, [FieldDimPaths(gf)[|FieldDimPaths(gf)| - 1]], exportDims, gi,
                         MaxNat(acc.totalGroupby, ProductOfMaxes(gf.seqCounts))))
      else Ok(DimsFold(dimsList, GroupedPaths(FieldDimPaths(t), |FieldExportDims(gf)|), exportDims, gi, acc.totalGroupby))
  }

  /** The pass over the first `n` frames, the target field at `ti` and the
      group-by field, if any, at `gi`. */
  function FoldFrames(frames: seq<DataFrame>, n: nat, ti: nat, gi: Option<nat>): (r: Result<DimsFold, QueryError>)
    requires 1 <= |frames| && n <= |frames| && HasField(frames, ti)
    requires gi.Some? ==> HasField(frames, gi.value)
    ensures r.Err? ==> r == Err(EmptyGroupByPaths) && gi.Some?
    ensures r.Ok? && gi.Some? ==> forall j :: 0 <= j < n ==> |frames[j].fields[gi.value].seqCounts| <= r.value.groupbyIdx
  {
    if n == 0 then Ok(InitialFold(frames[0].fields[ti]))
    else
      var acc :- FoldFrames(frames, n - 1, ti, gi);
      FoldStep(acc, frames[n - 1].fields[ti], if gi.Some? then Some(frames[n - 1].fields[gi.value]) else None)
  }

  /** The sizes the pass keeps are the level maxima of the target fields it
      has seen; without a group-by field the depth stays 0 and the pass
      cannot fail. */
  lemma {:induction false} FoldFramesDimsList(frames: seq<DataFrame>, n: nat, ti: nat, gi: Option<nat>)
    requires 1 <= |frames| && n <= |frames| && HasField(frames, ti)
    requires gi.Some? ==> HasField(frames, gi.value)
    ensures FoldFrames(frames, n, ti, gi).Ok? ==>
              FoldFrames(frames, n, ti, gi).value.dimsList == DimsList(Targets(frames, ti)[..n])
    ensures gi.None? ==> FoldFrames(frames, n, ti, gi).Ok? && FoldFrames(frames, n, ti, gi).value.groupbyIdx == 0
  {
    if n > 0 {
      FoldFramesDimsList(frames, n - 1, ti, gi);
      FoldStepDimsList(FoldFrames(frames, n - 1, ti, gi), frames[n - 1].fields[ti],
                       if gi.Some? then Some(frames[n - 1].fields[gi.value]) else None);
      DimsListSnoc(Targets(frames, ti), n);
    } else {
      assert Targets(frames, ti)[..0] == [];
    }
  }

  /** One step of the pass merges the frame's counts into the sizes, and
      without a group-by field it keeps the depth and cannot fail. */
  /** With a group-by field, the pass records the deepest group-by field
      of the frames seen, and fails only on a group-by field without paths
      that is deeper than the target. */
  lemma {:induction false} FoldFramesGroupBy(frames: seq<DataFrame>, n: nat, ti: nat, gi: Option<nat>)
    requires 1 <= |frames| && n <= |frames| && HasField(frames, ti)
    requires gi.Some? && HasField(frames, gi.value)
    requires forall j :: 0 <= j < n ==> FieldDimPaths(frames[j].fields[gi.value]) != []
    ensures FoldFrames(frames, n, ti, gi).Ok?
    ensures var r := FoldFrames(frames, n, ti, gi).value;
      r.groupbyIdx == 0 || exists j :: 0 <= j < n && |frames[j].fields[gi.value].seqCounts| == r.groupbyIdx
  {
    if n > 0 {
      FoldFramesGroupBy(frames, n - 1, ti, gi);
    }
  }

  lemma FoldStepDimsList(acc: Result<DimsFold, QueryError>, t: DataField, g: Option<DataField>)
    ensures acc.Ok? && FoldStep(acc.value, t, g).Ok? ==>
              FoldStep(acc.value, t, g).value.dimsList == MergeCounts(acc.value.dimsList, t.seqCounts)
    ensures acc.Ok? && g.None? ==>
              FoldStep(acc.value, t, g).Ok? && FoldStep(acc.value, t, g).value.groupbyIdx == acc.value.groupbyIdx
  {
  }

  lemma DimsListSnoc(ts: seq<DataField>, n: nat)
    requires 0 < n <= |ts|
    ensures DimsList(ts[..n]) == MergeCounts(DimsList(ts[..n - 1]), ts[n - 1].seqCounts)
  {
    assert ts[..n][..n - 1] == ts[..n - 1];
  }

  // ---------------------------------------------------------------------------
  // From the pass to the dimensions

  /** The per-frame dimensions, the sizes `getRowsForField` is given, and the
      export dimensions of the result. */
  datatype Shape = Shape(dims: seq<nat>, allDims: seq<nat>, exportDims: seq<int>)

  /** Every size 0 becomes 1, to make room for the missing value. */
  function ReplaceZeros(s: seq<nat>): (r: seq<nat>)
    ensures |r| == |s|
    ensures forall i :: 0 <= i < |s| ==> r[i] >= 1 && (s[i] != 0 ==> r[i] == s[i])
  {
    seq(|s|, i requires 0 <= i < |s| => if s[i] == 0 then 1 else s[i])
  }

  /** `exportDims - shift`, keeping only the entries that stay non-negative. */
  function ShiftExports(exportDims: seq<int>, shift: int): (r: seq<int>)
    ensures |r| <= |exportDims|
    ensures forall i :: 0 <= i < |r| ==> r[i] >= 0
    ensures forall x :: x in r <==> x >= 0 && x + shift in exportDims
  {
    if exportDims == [] then []
    else
      var rest := ShiftExports(exportDims[1..], shift);
      assert forall y :: y in exportDims <==> y == exportDims[0] || y in exportDims[1..];
      (if exportDims[0] - shift >= 0 then [exportDims[0] - shift] else []) + rest
  }

  /** The export dimensions after a group-by at depth `groupbyIdx`: shifted
      down by `groupbyIdx - 1`, the negative ones dropped, and 0 put first
      unless it already is. */
  function GroupedExports(exportDims: seq<int>, groupbyIdx: nat): (r: seq<int>)
    ensures |r| >= 1 && r[0] == 0
    ensures forall i :: 0 <= i < |r| ==> r[i] >= 0
    ensures forall x :: x in r <==> x == 0 || (x >= 0 && x + (groupbyIdx - 1) in exportDims)
  {
    var f := ShiftExports(exportDims, groupbyIdx - 1);
    if f == [] || f[0] != 0 then [0] + f else f
  }

  /** The dimensions as `getRawValues` computes them: no group-by keeps the
      sizes, with every 0 raised to 1; a group-by at most as deep as the
      target folds the first `groupbyIdx` levels into one, keeping the
      number of values per frame; a deeper group-by collapses everything
      into the number of group-by elements, which may be 0, and exports only
      the row dimension. */
  function ShapeOf(fold: DimsFold): (s: Shape)
    ensures fold.groupbyIdx <= |fold.dimsList| ==>
              && |s.allDims| == |fold.dimsList|
              && (forall i :: 0 <= i < |s.allDims| ==>
                    s.allDims[i] >= 1 && (fold.dimsList[i] != 0 ==> s.allDims[i] == fold.dimsList[i]))
              && (forall i :: 0 <= i < |s.dims| ==> s.dims[i] >= 1)
              && Product(s.dims) == Product(s.allDims)
    ensures fold.groupbyIdx == 0 ==> s.dims == s.allDims && s.exportDims == fold.exportDims
    ensures 0 < fold.groupbyIdx <= |fold.dimsList| ==>
              && |s.dims| == |fold.dimsList| - fold.groupbyIdx + 1
              && s.dims[1..] == s.allDims[fold.groupbyIdx..]
              && s.exportDims == GroupedExports(fold.exportDims, fold.groupbyIdx)
    ensures fold.groupbyIdx > |fold.dimsList| ==>
              s.dims == s.allDims == [fold.totalGroupby] && s.exportDims == [0]
  {
    var allDims := ReplaceZeros(fold.dimsList);
    var g := fold.groupbyIdx;
    if g == 0 then Shape(allDims, allDims, fold.exportDims)
    else if g > |fold.dimsList| then Shape([fold.totalGroupby], [fold.totalGroupby], [0])
    else
      GroupedShape(allDims, g);
      Shape([Product(allDims[..g])] + allDims[g..], allDims, GroupedExports(fold.exportDims, g))
  }

  /** The dimensions with the collapsed size kept at 1 or more, as the
      source's comment on zero sizes intends: every size is at least 1 and
      folding levels never changes the number of values per frame. */
  function ShapeCorrected(fold: DimsFold): (s: Shape)
    ensures forall i :: 0 <= i < |s.allDims| ==> s.allDims[i] >= 1
    ensures forall i :: 0 <= i < |s.dims| ==> s.dims[i] >= 1
    ensures Product(s.dims) == Product(s.allDims)
    ensures fold.groupbyIdx <= |fold.dimsList| ==> s == ShapeOf(fold)
    ensures fold.groupbyIdx > |fold.dimsList| ==>
              s.dims == s.allDims == [MaxNat(fold.totalGroupby, 1)] && s.exportDims == [0]
  {
    var g := fold.groupbyIdx;
    if g > |fold.dimsList| then
      Shape([MaxNat(fold.totalGroupby, 1)], [MaxNat(fold.totalGroupby, 1)], [0])
    else ShapeOf(fold)
  }

  /** Folding the first `g` sizes into one keeps the sizes positive and their
      product. */
  lemma GroupedShape(allDims: seq<nat>, g: nat)
    requires 0 < g <= |allDims| && forall i :: 0 <= i < |allDims| ==> allDims[i] >= 1
    ensures var dims := [Product(allDims[..g])] + allDims[g..];
      && (forall i :: 0 <= i < |dims| ==> dims[i] >= 1)
      && Product(dims) == Product(allDims)
  {
    var dims := [Product(allDims[..g])] + allDims[g..];
    ProductPositive(allDims[..g]);
    ProductConcat(allDims[..g], allDims[g..]);
    assert allDims[..g] + allDims[g..] == allDims;
    assert dims[1..] == allDims[g..];
  }

  // ---------------------------------------------------------------------------
  // getRowsForField: where each value goes

  /** The slots level `r` leaves unfilled for each of its entries: an entry
      with `c` repeats in a level of size `dims[r]` leaves `dims[r] - c` inner
      blocks empty. */
  function LevelInserts(dims: seq<nat>, cs: seq<nat>, r: nat): (ins: seq<int>)
    requires r < |dims|
    ensures |ins| == |cs|
    ensures forall k :: 0 <= k < |cs| ==> ins[k] == (dims[r] - cs[k]) * Product(dims[r + 1..])
  {
    ProductSuffix(dims, r);
    var inner := Product(dims[r + 1..]);
    var ins := seq(|cs|, k requires 0 <= k < |cs| => Product(dims[r..]) - cs[k] * inner);
    forall k | 0 <= k < |cs| ensures ins[k] == (dims[r] - cs[k]) * inner {
      Distribute(dims[r], cs[k], inner);
    }
    ins
  }

  lemma Distribute(a: int, b: int, c: int)
    ensures a * c - b * c == (a - b) * c
  {
  }

  /** The `inserts` array: one list per dimension, level `r` from the counts
      where the field has that level and a single 0 elsewhere. */
  function Inserts(dims: seq<nat>, counts: seq<seq<nat>>): (ins: seq<seq<int>>)
    ensures |ins| == |dims|
    ensures forall r :: 0 <= r < |dims| && r < |counts| ==> ins[r] == LevelInserts(dims, counts[r], r)
    ensures forall r :: |counts| <= r < |dims| ==> ins[r] == [0]
  {
    seq(|dims|, r requires 0 <= r < |dims| => if r < |counts| then LevelInserts(dims, counts[r], r) else [0])
  }

  /** A field's counts never exceed the sizes given, so nothing is negative. */
  predicate NoNegative(ins: seq<seq<int>>) {
    forall r, k :: 0 <= r < |ins| && 0 <= k < |ins[r]| ==> ins[r][k] >= 0
  }

  /** Counts within the sizes leave no negative insertion count. */
  lemma CountsWithinDims(dims: seq<nat>, counts: seq<seq<nat>>)
    requires forall r, k :: 0 <= r < |dims| && r < |counts| && 0 <= k < |counts[r]| ==> counts[r][k] <= dims[r]
    ensures NoNegative(Inserts(dims, counts))
  {
    var ins := Inserts(dims, counts);
    forall r, k | 0 <= r < |ins| && 0 <= k < |ins[r]| ensures ins[r][k] >= 0 {
      if r < |counts| {
        assert ins[r][k] == (dims[r] - counts[r][k]) * Product(dims[r + 1..]);
      }
    }
  }

  /** Every index above `after` moves up by `count`. */
  datatype Shift = Shift(after: int, count: nat)

  function ShiftAll(idxs: seq<int>, s: Shift): (r: seq<int>)
    ensures |r| == |idxs|
  {
    seq(|idxs|, i requires 0 <= i < |idxs| => if idxs[i] > s.after then idxs[i] + s.count else idxs[i])
  }

  function ApplyShifts(idxs: seq<int>, shifts: seq<Shift>): (r: seq<int>)
    ensures |r| == |idxs|
    decreases |shifts|
  {
    if shifts == [] then idxs else ApplyShifts(ShiftAll(idxs, shifts[0]), shifts[1..])
  }

  /** The shifts of entries `j..` of level `d`: an entry with `n > 0` empty
      slots opens them just before the end of its block of
      `product(dims[d..])` positions. */
  function LevelShifts(dims: seq<nat>, ins: seq<int>, d: nat, j: nat): seq<Shift>
    requires d < |dims| && j <= |ins|
    decreases |ins| - j
  {
    if j == |ins| then [] else EntryShift(dims, ins, d, j) + LevelShifts(dims, ins, d, j + 1)
  }

  function EntryShift(dims: seq<nat>, ins: seq<int>, d: nat, j: nat): seq<Shift>
    requires d < |dims| && j < |ins|
  {
    var p := Product(dims[d..]);
    if ins[j] > 0 then [Shift(p * j + p - ins[j] - 1, ins[j])] else []
  }

  /** The shifts of levels `d - 1` down to 0, innermost level first. */
  function AllShifts(dims: seq<nat>, ins: seq<seq<int>>, d: nat): seq<Shift>
    requires |ins| == |dims| && d <= |dims|
  {
    if d == 0 then [] else LevelShifts(dims, ins[d - 1], d - 1, 0) + AllShifts(dims, ins, d - 1)
  }

  function Iota(n: nat): (r: seq<int>)
    ensures |r| == n && forall i :: 0 <= i < n ==> r[i] == i
  {
    seq(n, i requires 0 <= i < n => i)
  }

  /** The position in the dense layout of each of the field's `n` values. */
  function InflatedIndices(n: nat, dims: seq<nat>, counts: seq<seq<nat>>): seq<int> {
    ApplyShifts(Iota(n), AllShifts(dims, Inserts(dims, counts), |dims|))
  }

  predicate StrictlyIncreasing(s: seq<int>) {
    forall i, j :: 0 <= i < j < |s| ==> s[i] < s[j]
  }

  /** A shift keeps the order of the indices and never moves one down. */
  lemma ShiftAllKeepsOrder(idxs: seq<int>, s: Shift)
    requires StrictlyIncreasing(idxs)
    ensures StrictlyIncreasing(ShiftAll(idxs, s))
    ensures forall i :: 0 <= i < |idxs| ==> ShiftAll(idxs, s)[i] >= idxs[i]
  {
  }

  lemma {:induction false} ApplyShiftsKeepsOrder(idxs: seq<int>, shifts: seq<Shift>)
    requires StrictlyIncreasing(idxs)
    ensures StrictlyIncreasing(ApplyShifts(idxs, shifts))
    ensures forall i :: 0 <= i < |idxs| ==> ApplyShifts(idxs, shifts)[i] >= idxs[i]
    decreases |shifts|
  {
    if shifts != [] {
      var next := ShiftAll(idxs, shifts[0]);
      ShiftAllKeepsOrder(idxs, shifts[0]);
      ApplyShiftsKeepsOrder(next, shifts[1..]);
    }
  }

  /** The values keep their order in the dense layout, and value `i` lands
      at position `i` or later. */
  lemma InflatedIndicesOrdered(n: nat, dims: seq<nat>, counts: seq<seq<nat>>)
    ensures |InflatedIndices(n, dims, counts)| == n
    ensures StrictlyIncreasing(InflatedIndices(n, dims, counts))
    ensures forall i :: 0 <= i < n ==> InflatedIndices(n, dims, counts)[i] >= i
  {
    var ins := Inserts(dims, counts);
    ApplyShiftsKeepsOrder(Iota(n), AllShifts(dims, ins, |dims|));
  }

  /** Applying a list of shifts one after the other. */
  lemma {:induction false} ApplyShiftsAppend(idxs: seq<int>, a: seq<Shift>, b: seq<Shift>)
    ensures ApplyShifts(idxs, a + b) == ApplyShifts(ApplyShifts(idxs, a), b)
    decreases |a|
  {
    if a != [] {
      assert (a + b)[0] == a[0] && (a + b)[1..] == a[1..] + b;
      ApplyShiftsAppend(ShiftAll(idxs, a[0]), a[1..], b);
    } else {
      assert a + b == b;
    }
  }

  /** The inflation loops of `getRowsForField`: from the innermost level out,
      every entry with empty slots moves the indices past its last filled
      position up by the number of empty slots. */
  method InflateIndices(n: nat, dims: seq<nat>, ins: seq<seq<int>>) returns (idxs: seq<int>)
    requires |ins| == |dims|
    ensures idxs == ApplyShifts(Iota(n), AllShifts(dims, ins, |dims|))
    ensures |idxs| == n && StrictlyIncreasing(idxs)
  {
    ghost var target := ApplyShifts(Iota(n), AllShifts(dims, ins, |dims|));
    idxs := Iota(n);
    var d := |dims|;
    while d > 0
      invariant 0 <= d <= |dims|
      invariant ApplyShifts(idxs, AllShifts(dims, ins, d)) == target
    {
      d := d - 1;
      idxs := InflateLevel(idxs, dims, ins[d], d, AllShifts(dims, ins, d));
      AllShiftsStep(dims, ins, d);
    }
    IotaShiftedOrdered(n, AllShifts(dims, ins, |dims|));
  }

  lemma AllShiftsStep(dims: seq<nat>, ins: seq<seq<int>>, d: nat)
    requires |ins| == |dims| && d < |dims|
    ensures AllShifts(dims, ins, d + 1) == LevelShifts(dims, ins[d], d, 0) + AllShifts(dims, ins, d)
  {
  }

  /** Shifting the positions `0..n` keeps them in strictly increasing order. */
  lemma IotaShiftedOrdered(n: nat, shifts: seq<Shift>)
    ensures |ApplyShifts(Iota(n), shifts)| == n && StrictlyIncreasing(ApplyShifts(Iota(n), shifts))
  {
    ApplyShiftsKeepsOrder(Iota(n), shifts);
  }

  /** The middle loop, over the entries of level `d`. */
  method InflateLevel(idxs: seq<int>, dims: seq<nat>, ins: seq<int>, d: nat, ghost tail: seq<Shift>) returns (r: seq<int>)
    requires d < |dims|
    ensures ApplyShifts(r, tail) == ApplyShifts(idxs, LevelShifts(dims, ins, d, 0) + tail)
  {
    ghost var goal := ApplyShifts(idxs, LevelShifts(dims, ins, d, 0) + tail);
    r := idxs;
    var j := 0;
    while j < |ins|
      invariant 0 <= j <= |ins|
      invariant ApplyShifts(r, LevelShifts(dims, ins, d, j) + tail) == goal
    {
      r := InflateAt(r, dims, ins, d, j, tail);
      j := j + 1;
    }
    assert LevelShifts(dims, ins, d, j) + tail == tail;
  }

  /** The body of the middle loop for entry `j`. */
  method InflateAt(idxs: seq<int>, dims: seq<nat>, ins: seq<int>, d: nat, j: nat, ghost tail: seq<Shift>) returns (r: seq<int>)
    requires d < |dims| && j < |ins|
    ensures ApplyShifts(idxs, LevelShifts(dims, ins, d, j) + tail) == ApplyShifts(r, LevelShifts(dims, ins, d, j + 1) + tail)
  {
    var num := ins[j];
    var p := Product(dims[d..]);
    r := idxs;
    if num > 0 {
      r := ShiftIndices(r, p * j + p - num - 1, num);
    }
    InflateEntry(idxs, r, dims, ins, d, j, tail);
  }

  /** One pass of the middle loop: entry `j` of level `d` shifts the indices
      if it has empty slots and leaves them alone otherwise. */
  lemma InflateEntry(idxs: seq<int>, next: seq<int>, dims: seq<nat>, ins: seq<int>, d: nat, j: nat, tail: seq<Shift>)
    requires d < |dims| && j < |ins|
    requires ins[j] > 0 ==>
               next == ShiftAll(idxs, Shift(Product(dims[d..]) * j + Product(dims[d..]) - ins[j] - 1, ins[j]))
    requires ins[j] <= 0 ==> next == idxs
    ensures ApplyShifts(idxs, LevelShifts(dims, ins, d, j) + tail) == ApplyShifts(next, LevelShifts(dims, ins, d, j + 1) + tail)
  {
    var rest := LevelShifts(dims, ins, d, j + 1) + tail;
    LevelShiftsStep(dims, ins, d, j, tail);
    if ins[j] > 0 {
      var p := Product(dims[d..]);
      var s := Shift(p * j + p - ins[j] - 1, ins[j]);
      assert EntryShift(dims, ins, d, j) == [s];
      ApplyShiftsCons(idxs, s, rest);
    } else {
      NoEntryShift(dims, ins, d, j, rest);
    }
  }

  lemma NoEntryShift(dims: seq<nat>, ins: seq<int>, d: nat, j: nat, rest: seq<Shift>)
    requires d < |dims| && j < |ins| && ins[j] <= 0
    ensures EntryShift(dims, ins, d, j) + rest == rest
  {
    assert EntryShift(dims, ins, d, j) == [];
  }

  lemma ApplyShiftsCons(idxs: seq<int>, s: Shift, rest: seq<Shift>)
    ensures ApplyShifts(idxs, [s] + rest) == ApplyShifts(ShiftAll(idxs, s), rest)
  {
    assert ([s] + rest)[0] == s && ([s] + rest)[1..] == rest;
  }

  /** One entry of a level: its shift, if it has empty slots, comes first. */
  lemma LevelShiftsStep(dims: seq<nat>, ins: seq<int>, d: nat, j: nat, tail: seq<Shift>)
    requires d < |dims| && j < |ins|
    ensures LevelShifts(dims, ins, d, j) + tail == EntryShift(dims, ins, d, j) + (LevelShifts(dims, ins, d, j + 1) + tail)
  {
  }

  /** The innermost loop: every index above `at` moves up by `num`. */
  method ShiftIndices(idxs: seq<int>, at: int, num: nat) returns (r: seq<int>)
    ensures r == ShiftAll(idxs, Shift(at, num))
  {
    r := idxs;
    var i := 0;
    while i < |r|
      invariant 0 <= i <= |r| == |idxs|
      invariant forall k :: 0 <= k < i ==> r[k] == ShiftAll(idxs, Shift(at, num))[k]
      invariant forall k :: i <= k < |r| ==> r[k] == idxs[k]
    {
      if r[i] > at {
        r := r[i := r[i] + num];
      }
      i := i + 1;
    }
  }

  // ---------------------------------------------------------------------------
  // getRowsForField: the dense buffer and its rows

  /** `output[idxs[i]] = data[i]` for `i` from `from` on, in order. */
  function Scatter(out: seq<Value>, idxs: seq<int>, data: seq<Value>, from: nat): (r: Result<seq<Value>, QueryError>)
    requires |idxs| == |data| && from <= |idxs|
    ensures r.Ok? <==> forall k :: from <= k < |idxs| ==> 0 <= idxs[k] < |out|
    ensures r.Err? ==> r == Err(WriteOutOfRange)
    ensures r.Ok? ==> |r.value| == |out|
    decreases |idxs| - from
  {
    if from == |idxs| then Ok(out)
    else if idxs[from] < 0 || idxs[from] >= |out| then Err(WriteOutOfRange)
    else Scatter(out[idxs[from] := data[from]], idxs, data, from + 1)
  }

  /** A slot no index names keeps its value. */
  lemma {:induction false} ScatterKeeps(out: seq<Value>, idxs: seq<int>, data: seq<Value>, from: nat, p: nat)
    requires |idxs| == |data| && from <= |idxs| && Scatter(out, idxs, data, from).Ok?
    requires p < |out| && forall k :: from <= k < |idxs| ==> idxs[k] != p
    ensures Scatter(out, idxs, data, from).value[p] == out[p]
    decreases |idxs| - from
  {
    if from < |idxs| {
      ScatterKeeps(out[idxs[from] := data[from]], idxs, data, from + 1, p);
    }
  }

  /** The last write to a slot wins. */
  lemma {:induction false} ScatterPlaces(out: seq<Value>, idxs: seq<int>, data: seq<Value>, from: nat, k: nat)
    requires |idxs| == |data| && from <= k < |idxs| && Scatter(out, idxs, data, from).Ok?
    requires forall k' :: k < k' < |idxs| ==> idxs[k'] != idxs[k]
    ensures 0 <= idxs[k] < |out| && Scatter(out, idxs, data, from).value[idxs[k]] == data[k]
    decreases |idxs| - from
  {
    var next := out[idxs[from] := data[from]];
    if k == from {
      ScatterKeeps(next, idxs, data, from + 1, idxs[k]);
    } else {
      ScatterPlaces(next, idxs, data, from + 1, k);
    }
  }

  /** With the indices in increasing order, the scatter succeeds exactly
      when the last index fits, puts every value at its index, and leaves
      every other slot alone. */
  lemma ScatterOrdered(out: seq<Value>, idxs: seq<int>, data: seq<Value>)
    requires |idxs| == |data| && StrictlyIncreasing(idxs)
    requires forall i :: 0 <= i < |idxs| ==> idxs[i] >= 0
    ensures Scatter(out, idxs, data, 0).Ok? <==> |idxs| == 0 || idxs[|idxs| - 1] < |out|
    ensures Scatter(out, idxs, data, 0).Ok? ==>
              && (forall i :: 0 <= i < |idxs| ==> Scatter(out, idxs, data, 0).value[idxs[i]] == data[i])
              && (forall p :: 0 <= p < |out| && p !in idxs ==> Scatter(out, idxs, data, 0).value[p] == out[p])
  {
    var r := Scatter(out, idxs, data, 0);
    if r.Ok? {
      forall i | 0 <= i < |idxs| ensures r.value[idxs[i]] == data[i] {
        ScatterPlaces(out, idxs, data, 0, i);
      }
      forall p | 0 <= p < |out| && p !in idxs ensures r.value[p] == out[p] {
        ScatterKeeps(out, idxs, data, 0, p);
      }
    }
  }

  /** The field's values spread over a buffer of `product(dims)` slots, the
      others holding the fill value. A field without values only fills the
      buffer, whatever its insertion counts; one with values needs them
      non-negative. */
  function Output(f: DataField, dims: seq<nat>): (r: Result<seq<Value>, QueryError>)
    ensures !NoNegative(Inserts(dims, f.seqCounts)) && |f.data| > 0 ==> r == Err(NegativeInsert)
    ensures |f.data| == 0 ==> r == Ok(Missing(Product(dims)))
    ensures r.Err? ==> r == Err(NegativeInsert) || r == Err(WriteOutOfRange)
    ensures r.Ok? ==> |r.value| == Product(dims)
  {
    if !NoNegative(Inserts(dims, f.seqCounts)) && |f.data| > 0 then Err(NegativeInsert)
    else
      var idxs := InflatedIndices(|f.data|, dims, f.seqCounts);
      Scatter(Missing(Product(dims)), idxs, f.data, 0)
  }

  /** The buffer can be built exactly when the last value's position fits;
      then value `i` sits at its inflated index and every other slot holds
      the missing value. */
  lemma OutputPlacesValues(f: DataField, dims: seq<nat>)
    requires NoNegative(Inserts(dims, f.seqCounts))
    ensures var idxs := InflatedIndices(|f.data|, dims, f.seqCounts);
      var r := Output(f, dims);
      && (r.Ok? <==> |f.data| == 0 || idxs[|f.data| - 1] < Product(dims))
      && (r.Ok? ==> forall i :: 0 <= i < |f.data| ==> 0 <= idxs[i] < |r.value| && r.value[idxs[i]] == f.data[i])
      && (r.Ok? ==> forall p :: 0 <= p < |r.value| && p !in idxs ==> r.value[p] == MissingValue)
  {
    var idxs := InflatedIndices(|f.data|, dims, f.seqCounts);
    var out := Missing(Product(dims));
    assert Output(f, dims) == Scatter(out, idxs, f.data, 0);
    InflatedIndicesOrdered(|f.data|, dims, f.seqCounts);
    ScatterOrdered(out, idxs, f.data);
  }

  /** The largest number of entries at any level, 0 without levels. */
  function MaxCounts(counts: seq<seq<nat>>): (m: nat)
    ensures forall i :: 0 <= i < |counts| ==> |counts[i]| <= m
    ensures m == 0 || exists i :: 0 <= i < |counts| && |counts[i]| == m
  {
    if counts == [] then 0
    else
      var rest := MaxCounts(counts[1..]);
      assert forall i :: 1 <= i < |counts| ==> counts[i] == counts[1..][i - 1];
      if |counts[0]| >= rest then |counts[0]| else rest
  }

  /** Rows `0..n` of width `w` cut from the front of `out`. */
  function Chunks(out: seq<Value>, w: nat, n: nat): (rows: seq<seq<Value>>)
    requires n * w <= |out|
    ensures |rows| == n
    ensures forall i :: 0 <= i < n ==> |rows[i]| == w
  {
    if n == 0 then []
    else
      MulSucc(n - 1, w);
      [out[..w]] + Chunks(out[w..], w, n - 1)
  }

  lemma MulSucc(k: nat, w: nat)
    ensures (k + 1) * w == w + k * w
  {
  }

  /** The rows one after the other. */
  function Flatten(rows: seq<seq<Value>>): seq<Value> {
    if rows == [] then [] else rows[0] + Flatten(rows[1..])
  }

  /** Cutting a buffer into rows and putting them back together gives the
      buffer back. */
  lemma {:induction false} FlattenChunks(out: seq<Value>, w: nat, n: nat)
    requires n * w <= |out|
    ensures Flatten(Chunks(out, w, n)) == out[..n * w]
  {
    if n > 0 {
      MulSucc(n - 1, w);
      var rows := Chunks(out, w, n);
      assert rows[0] == out[..w] && rows[1..] == Chunks(out[w..], w, n - 1);
      FlattenChunks(out[w..], w, n - 1);
      assert out[..w] + out[w..][..(n - 1) * w] == out[..n * w];
    }
  }

  /** Row `i` holds the values `i * w` up to `(i + 1) * w` of the buffer. */
  lemma ChunkIsSlice(out: seq<Value>, w: nat, n: nat, i: nat)
    requires n * w <= |out| && i < n
    ensures i * w + w <= |out|
    ensures Chunks(out, w, n)[i] == out[i * w..i * w + w]
  {
    MulSucc(i, w);
    MulMono(i + 1, n, w);
    ChunkAt(out, w, n, i, i * w);
  }

  /** The same, with the row's start named. */
  lemma {:induction false} ChunkAt(out: seq<Value>, w: nat, n: nat, i: nat, start: nat)
    requires n * w <= |out| && i < n && start == i * w && start + w <= |out|
    ensures Chunks(out, w, n)[i] == out[start..start + w]
  {
    MulSucc(n - 1, w);
    if i == 0 {
      assert Chunks(out, w, n)[0] == out[..w];
    } else {
      MulSucc(i - 1, w);
      ChunkAt(out[w..], w, n - 1, i - 1, start - w);
      assert Chunks(out, w, n)[i] == Chunks(out[w..], w, n - 1)[i - 1];
      DropSlice(out, w, start - w, start);
    }
  }

  lemma DropSlice(out: seq<Value>, w: nat, a: nat, b: nat)
    requires a <= b && w + b <= |out|
    ensures out[w..][a..b] == out[w + a..w + b]
  {
  }

  /** The split of a dimension list at `g`: its product is the product of
      the two parts. */
  lemma ProductSplit(dims: seq<nat>, g: nat)
    requires g <= |dims|
    ensures Product(dims[..g]) * Product(dims[g..]) == Product(dims)
  {
    ProductConcat(dims[..g], dims[g..]);
    assert dims[..g] + dims[g..] == dims;
  }

  /** With a group-by within the field's depth: `product(dims[..g])` rows of
      `product(dims[g..])` consecutive values, which rejoin into the buffer. */
  function GroupRows(out: seq<Value>, dims: seq<nat>, g: nat): (rows: seq<seq<Value>>)
    requires g <= |dims| && |out| == Product(dims)
    ensures |rows| == Product(dims[..g])
    ensures forall i :: 0 <= i < |rows| ==> |rows[i]| == Product(dims[g..])
    ensures Flatten(rows) == out
  {
    ProductSplit(dims, g);
    FlattenChunks(out, Product(dims[g..]), Product(dims[..g]));
    Chunks(out, Product(dims[g..]), Product(dims[..g]))
  }

  /** Row `i` of the grouped rows is the `i`-th stretch of
      `product(dims[g..])` consecutive values of the buffer. */
  lemma GroupRowsSlices(out: seq<Value>, dims: seq<nat>, g: nat)
    requires g <= |dims| && |out| == Product(dims)
    ensures var w := Product(dims[g..]);
      forall i :: 0 <= i < |GroupRows(out, dims, g)| ==> i * w + w <= |out| && GroupRows(out, dims, g)[i] == out[i * w..i * w + w]
  {
    ProductSplit(dims, g);
    var w, n := Product(dims[g..]), Product(dims[..g]);
    forall i | 0 <= i < n ensures i * w + w <= |out| && Chunks(out, w, n)[i] == out[i * w..i * w + w] {
      ChunkIsSlice(out, w, n, i);
    }
  }

  /** With a group-by deeper than the field: `numRows * maxCounts` one-value
      rows of the missing value, the first `numRows` of them overwritten with
      the buffer's first value when there is one. */
  function CollapsedRows(out: seq<Value>, numRows: nat, maxCounts: nat): (r: Result<seq<seq<Value>>, QueryError>)
    ensures r.Err? <==> numRows > 0 && |out| > 0 && maxCounts == 0
    ensures r.Ok? ==> |r.value| == numRows * maxCounts
    ensures r.Ok? ==> forall i :: 0 <= i < |r.value| ==> |r.value[i]| == 1
    ensures r.Ok? && |out| > 0 ==> forall i :: 0 <= i < numRows ==> r.value[i] == [out[0]]
    ensures r.Ok? ==> forall i :: 0 <= i < |r.value| && (i >= numRows || |out| == 0) ==> r.value[i] == [MissingValue]
  {
    if numRows > 0 && |out| > 0 && maxCounts == 0 then Err(WriteOutOfRange)
    else
      Ok(seq(numRows * maxCounts, i requires 0 <= i => if i < numRows && |out| > 0 then [out[0]] else [MissingValue]))
  }

  /** `getRowsForField`: the field's values spread over the dense layout of
      `dims`, then cut into rows: one row without a group-by, grouped rows
      with a group-by within the field's depth, collapsed rows with a deeper
      one. */
  function GetRowsForField(f: DataField, dims: seq<nat>, g: nat): (r: Result<seq<seq<Value>>, QueryError>)
    ensures Output(f, dims).Err? ==> r == Err(Output(f, dims).error)
    ensures Output(f, dims).Ok? && g == 0 ==> r == Ok([Output(f, dims).value])
    ensures Output(f, dims).Ok? && 0 < g <= |f.seqCounts| && g > |dims| ==> r == Err(GroupByBeyondDims)
    ensures Output(f, dims).Ok? && 0 < g <= |f.seqCounts| && g <= |dims| ==>
              r == Ok(GroupRows(Output(f, dims).value, dims, g))
    ensures Output(f, dims).Ok? && g > |f.seqCounts| ==>
              r == CollapsedRows(Output(f, dims).value, Product(dims), MaxCounts(f.seqCounts))
  {
    var out :- Output(f, dims);
    if g == 0 then Ok([out])
    else if g > |f.seqCounts| then CollapsedRows(out, Product(dims), MaxCounts(f.seqCounts))
    else if g > |dims| then Err(GroupByBeyondDims)
    else Ok(GroupRows(out, dims, g))
  }

  // ---------------------------------------------------------------------------
  // getRawValues: writing every frame's rows into the result

  /** `n` copies of the missing value. */
  function Missing(n: nat): (r: seq<Value>)
    ensures |r| == n && forall i :: 0 <= i < n ==> r[i] == MissingValue
  {
    seq(n, _ => MissingValue)
  }

  /** `row` written over `data` from position `at` on. */
  function Splice(data: seq<Value>, at: nat, row: seq<Value>): (r: seq<Value>)
    requires at + |row| <= |data|
    ensures |r| == |data|
    ensures r[..at] == data[..at] && r[at..at + |row|] == row && r[at + |row|..] == data[at + |row|..]
  {
    data[..at] + row + data[at + |row|..]
  }

  /** The write loop for one frame: row `i` goes to `base + i * |row|`, one
      value after the other; an empty row writes nothing. */
  function WriteRows(data: seq<Value>, base: nat, rows: seq<seq<Value>>, i: nat): (r: Result<seq<Value>, QueryError>)
    requires i <= |rows|
    ensures r.Ok? ==> |r.value| == |data|
    ensures r.Err? ==> r == Err(WriteOutOfRange)
    decreases |rows| - i
  {
    if i == |rows| then Ok(data)
    else if |rows[i]| == 0 then WriteRows(data, base, rows, i + 1)
    else if base + i * |rows[i]| + |rows[i]| > |data| then Err(WriteOutOfRange)
    else WriteRows(Splice(data, base + i * |rows[i]|, rows[i]), base, rows, i + 1)
  }

  lemma MulMono(a: nat, b: nat, w: nat)
    requires a <= b
    ensures a * w <= b * w
  {
  }

  /** Rows of one width written from `base` land one after the other: the
      written stretch is the rows put together. */
  lemma WriteRowsUniform(data: seq<Value>, base: nat, rows: seq<seq<Value>>, w: nat, i: nat)
    requires i <= |rows| && forall k :: 0 <= k < |rows| ==> |rows[k]| == w
    requires base + |rows| * w <= |data|
    ensures base + i * w <= base + |rows| * w
    ensures WriteRows(data, base, rows, i) == Ok(data[..base + i * w] + Flatten(rows[i..]) + data[base + |rows| * w..])
  {
    MulMono(i, |rows|, w);
    WriteRowsFrom(data, base, rows, w, i, base + i * w, base + |rows| * w);
  }

  /** The same, with the start and end of the written stretch named. */
  lemma {:induction false} WriteRowsFrom(data: seq<Value>, base: nat, rows: seq<seq<Value>>, w: nat, i: nat, start: nat, end: nat)
    requires i <= |rows| && forall k :: 0 <= k < |rows| ==> |rows[k]| == w
    requires start == base + i * w && end == base + |rows| * w && start <= end <= |data|
    ensures WriteRows(data, base, rows, i) == Ok(data[..start] + Flatten(rows[i..]) + data[end..])
    decreases |rows| - i, 1
  {
    if i == |rows| {
      WriteRowsDone(data, start, rows, i);
    } else {
      MulSucc(i, w);
      MulMono(i + 1, |rows|, w);
      FlattenFrom(rows, i);
      if w == 0 {
        assert rows[i] == [];
        WriteRowsFrom(data, base, rows, w, i + 1, start, end);
      } else {
        WriteRowsSplice(data, base, rows, w, i, start, end);
      }
    }
  }

  lemma WriteRowsDone(data: seq<Value>, k: nat, rows: seq<seq<Value>>, i: nat)
    requires i == |rows| && k <= |data|
    ensures data[..k] + Flatten(rows[i..]) + data[k..] == data
  {
    assert rows[i..] == [];
  }

  lemma FlattenFrom(rows: seq<seq<Value>>, i: nat)
    requires i < |rows|
    ensures Flatten(rows[i..]) == rows[i] + Flatten(rows[i + 1..])
  {
    assert rows[i..][0] == rows[i] && rows[i..][1..] == rows[i + 1..];
  }

  /** One non-empty row of the uniform write: splice it, then the rest. */
  lemma {:induction false} WriteRowsSplice(data: seq<Value>, base: nat, rows: seq<seq<Value>>, w: nat, i: nat,
                                           start: nat, end: nat)
    requires i < |rows| && w > 0 && forall k :: 0 <= k < |rows| ==> |rows[k]| == w
    requires start == base + i * w && start + w == base + (i + 1) * w
    requires end == base + |rows| * w && start + w <= end <= |data|
    requires Flatten(rows[i..]) == rows[i] + Flatten(rows[i + 1..])
    ensures WriteRows(data, base, rows, i) == Ok(data[..start] + Flatten(rows[i..]) + data[end..])
    decreases |rows| - i, 0
  {
    var d := Splice(data, start, rows[i]);
    WriteRowsStep(data, base, rows, i, start);
    WriteRowsFrom(d, base, rows, w, i + 1, start + w, end);
    SpliceThen(data, start, rows[i], Flatten(rows[i + 1..]), end);
  }

  /** A non-empty row that fits is spliced in before the rows after it. */
  lemma WriteRowsStep(data: seq<Value>, base: nat, rows: seq<seq<Value>>, i: nat, at: nat)
    requires i < |rows| && |rows[i]| > 0 && at == base + i * |rows[i]| && at + |rows[i]| <= |data|
    ensures WriteRows(data, base, rows, i) == WriteRows(Splice(data, at, rows[i]), base, rows, i + 1)
  {
  }

  lemma SpliceThen(data: seq<Value>, at: nat, row: seq<Value>, rest: seq<Value>, end: nat)
    requires at + |row| <= end <= |data|
    ensures Splice(data, at, row)[..at + |row|] + rest + Splice(data, at, row)[end..] == data[..at] + (row + rest) + data[end..]
  {
    var d := Splice(data, at, row);
    assert d[..at + |row|] == data[..at] + row;
    assert d[end..] == data[end..];
  }

  lemma {:induction false} FlattenLength(rows: seq<seq<Value>>, w: nat)
    requires forall k :: 0 <= k < |rows| ==> |rows[k]| == w
    ensures |Flatten(rows)| == |rows| * w
  {
    if rows != [] {
      FlattenLength(rows[1..], w);
      MulSucc(|rows| - 1, w);
    }
  }

  /** The pass over frames `0..n`: a missing target field leaves its rows at
      the missing value; otherwise its rows are written from row
      `frameRows * frameIdx`. */
  function FillFrames(data: seq<Value>, frames: seq<DataFrame>, ti: nat, allDims: seq<nat>, g: nat,
                      frameRows: nat, rowLength: nat, n: nat): (r: Result<seq<Value>, QueryError>)
    requires n <= |frames| && HasField(frames, ti)
    ensures r.Ok? ==> |r.value| == |data|
  {
    if n == 0 then Ok(data)
    else
      FillFrame(FillFrames(data, frames, ti, allDims, g, frameRows, rowLength, n - 1),
                frames[n - 1].fields[ti], allDims, g, FrameBase(frameRows, n - 1, rowLength))
  }

  /** One frame of the pass: a missing target field leaves the buffer as it
      is; otherwise the field's rows are written from `base`. */
  function FillFrame(prev: Result<seq<Value>, QueryError>, f: DataField, allDims: seq<nat>, g: nat, base: nat)
    : (r: Result<seq<Value>, QueryError>)
    ensures prev.Err? ==> r == prev
    ensures r.Ok? ==> prev.Ok? && |r.value| == |prev.value|
    ensures prev.Ok? && f.missing ==> r == prev
  {
    var d :- prev;
    if f.missing then Ok(d)
    else
      var rows :- GetRowsForField(f, allDims, g);
      WriteRows(d, base, rows, 0)
  }

  /** Where frame `frameIdx`'s rows start: `frameIdx` frames of
      `frameRows` rows of `rowLength` values each. */
  function FrameBase(frameRows: nat, frameIdx: nat, rowLength: nat): nat {
    if frameIdx == 0 then 0 else FrameBase(frameRows, frameIdx - 1, rowLength) + frameRows * rowLength
  }

  /** The start of frame `frameIdx` is `dims[0] * frameIdx * rowLength`. */
  lemma {:induction false} FrameBaseIs(frameRows: nat, frameIdx: nat, rowLength: nat)
    ensures FrameBase(frameRows, frameIdx, rowLength) == frameRows * frameIdx * rowLength
    ensures FrameBase(frameRows, frameIdx, rowLength) == frameIdx * (frameRows * rowLength)
  {
    BaseOffset(frameRows, frameIdx, rowLength);
    if frameIdx > 0 {
      FrameBaseIs(frameRows, frameIdx - 1, rowLength);
      MulSucc(frameIdx - 1, frameRows * rowLength);
    }
  }

  /** The rows of all frames together. */
  function TotalRows(frameRows: nat, frames: nat): nat {
    frameRows * frames
  }

  /** The all-missing result holds `frames` frames of `dims` values. */
  lemma AllFramesLength(dims: seq<nat>, frames: nat)
    requires dims != []
    ensures FrameBase(dims[0], frames, Product(dims[1..])) == frames * Product(dims)
  {
    FrameBaseIs(dims[0], frames, Product(dims[1..]));
  }

  /** What frame `j` contributes: its field's dense buffer, or missing
      values when the field is missing (or its buffer cannot be built). */
  function FrameBlock(f: DataField, allDims: seq<nat>): (b: seq<Value>)
    ensures |b| == Product(allDims)
  {
    if !f.missing && Output(f, allDims).Ok? then Output(f, allDims).value else Missing(Product(allDims))
  }

  function Blocks(frames: seq<DataFrame>, ti: nat, allDims: seq<nat>, n: nat): (bs: seq<seq<Value>>)
    requires n <= |frames| && HasField(frames, ti)
    ensures |bs| == n && forall j :: 0 <= j < n ==> bs[j] == FrameBlock(frames[j].fields[ti], allDims)
  {
    seq(n, j requires 0 <= j < n => FrameBlock(frames[j].fields[ti], allDims))
  }

  /** Every frame's target field goes at least as deep as the group-by. */
  predicate DeepEnough(frames: seq<DataFrame>, ti: nat, g: nat)
    requires HasField(frames, ti)
  {
    forall j :: 0 <= j < |frames| && !frames[j].fields[ti].missing ==> g <= |frames[j].fields[ti].seqCounts|
  }

  /** The frame is present and its buffer can be built. */
  predicate FrameOk(f: DataField, allDims: seq<nat>) {
    f.missing || Output(f, allDims).Ok?
  }

  lemma BaseOffset(a: nat, n: nat, b: nat)
    ensures a * n * b == n * (a * b)
  {
  }

  /** `k` blocks of `B` missing values. */
  function MissingBlocks(k: nat, B: nat): (bs: seq<seq<Value>>)
    ensures |bs| == k && forall j :: 0 <= j < k ==> bs[j] == Missing(B)
  {
    seq(k, _ => Missing(B))
  }

  /** What the pass over an all-missing result holds after frames `0..n`:
      it failed exactly when one of them cannot be built, and otherwise
      holds their blocks followed by missing blocks. */
  predicate Filled(frames: seq<DataFrame>, ti: nat, allDims: seq<nat>, n: nat, r: Result<seq<Value>, QueryError>)
    requires n <= |frames| && HasField(frames, ti)
  {
    && (r.Ok? <==> forall j :: 0 <= j < n ==> FrameOk(frames[j].fields[ti], allDims))
    && (r.Ok? ==> r.value == Flatten(Blocks(frames, ti, allDims, n) + MissingBlocks(|frames| - n, Product(allDims))))
  }

  /** What the pass over the frames relies on: each frame's rows fill its
      block, the group-by level exists, and every present field reaches it. */
  predicate FillSetup(frames: seq<DataFrame>, ti: nat, allDims: seq<nat>, g: nat, frameRows: nat, rowLength: nat)
    requires HasField(frames, ti)
  {
    && frameRows * rowLength == Product(allDims) && g <= |allDims|
    && (0 < g ==> rowLength == Product(allDims[g..]))
    && DeepEnough(frames, ti, g)
  }

  /** Unless the group-by is deeper than a target field, the pass writes
      each frame's buffer, whole, as the frame's block of the result, and
      fails exactly when some present frame's buffer cannot be built. */
  lemma {:induction false} FillFramesBlocks(frames: seq<DataFrame>, ti: nat, allDims: seq<nat>, g: nat,
                                            frameRows: nat, rowLength: nat, n: nat)
    requires n <= |frames| && HasField(frames, ti)
    requires FillSetup(frames, ti, allDims, g, frameRows, rowLength)
    ensures Filled(frames, ti, allDims, n,
                   FillFrames(Flatten(MissingBlocks(|frames|, Product(allDims))), frames, ti, allDims, g, frameRows, rowLength, n))
  {
    var start := Flatten(MissingBlocks(|frames|, Product(allDims)));
    if n > 0 {
      var m := n - 1;
      FillFramesBlocks(frames, ti, allDims, g, frameRows, rowLength, m);
      FillFrameStep(frames, ti, allDims, g, frameRows, rowLength, m, n,
                    FillFrames(start, frames, ti, allDims, g, frameRows, rowLength, m));
    } else {
      FilledAtStart(frames, ti, allDims, start);
    }
  }

  /** Before any frame, the pass holds only missing blocks. */
  lemma FilledAtStart(frames: seq<DataFrame>, ti: nat, allDims: seq<nat>, start: seq<Value>)
    requires HasField(frames, ti) && start == Flatten(MissingBlocks(|frames|, Product(allDims)))
    ensures Filled(frames, ti, allDims, 0, Ok(start))
  {
    assert Blocks(frames, ti, allDims, 0) + MissingBlocks(|frames|, Product(allDims)) == MissingBlocks(|frames|, Product(allDims));
  }

  /** Frame `m` of the pass, after the `m` frames before it. */
  lemma FillFrameStep(frames: seq<DataFrame>, ti: nat, allDims: seq<nat>, g: nat,
                      frameRows: nat, rowLength: nat, m: nat, n: nat, prev: Result<seq<Value>, QueryError>)
    requires m + 1 == n <= |frames| && HasField(frames, ti)
    requires FillSetup(frames, ti, allDims, g, frameRows, rowLength)
    requires Filled(frames, ti, allDims, m, prev)
    ensures Filled(frames, ti, allDims, n, FillFrame(prev, frames[m].fields[ti], allDims, g, FrameBase(frameRows, m, rowLength)))
  {
    var f := frames[m].fields[ti];
    var base := FrameBase(frameRows, m, rowLength);
    if prev.Ok? {
      var B := Product(allDims);
      var X := Flatten(Blocks(frames, ti, allDims, m));
      var R := Flatten(MissingBlocks(|frames| - n, B));
      BlocksShift(frames, ti, allDims, m, n);
      if !f.missing && Output(f, allDims).Ok? {
        FrameBaseIs(frameRows, m, rowLength);
        FillFrameWrites(prev.value, f, allDims, g, base, rowLength, X, R);
        FilledAfterWrite(frames, ti, allDims, m, n, prev, FillFrame(prev, f, allDims, g, base), X, R);
      } else {
        FilledAfterSkip(frames, ti, allDims, g, m, n, prev, base, X, R);
      }
    } else {
      FilledAfterFailure(frames, ti, allDims, g, m, n, prev, base);
    }
  }

  /** A failure before frame `m` stays a failure. */
  lemma FilledAfterFailure(frames: seq<DataFrame>, ti: nat, allDims: seq<nat>, g: nat,
                           m: nat, n: nat, prev: Result<seq<Value>, QueryError>, base: nat)
    requires m + 1 == n <= |frames| && HasField(frames, ti)
    requires Filled(frames, ti, allDims, m, prev) && prev.Err?
    ensures Filled(frames, ti, allDims, n, FillFrame(prev, frames[m].fields[ti], allDims, g, base))
  {
  }

  /** A frame whose field is missing, or whose buffer cannot be built,
      leaves its block at the missing value or fails. */
  lemma FilledAfterSkip(frames: seq<DataFrame>, ti: nat, allDims: seq<nat>, g: nat,
                        m: nat, n: nat, prev: Result<seq<Value>, QueryError>, base: nat, X: seq<Value>, R: seq<Value>)
    requires m + 1 == n <= |frames| && HasField(frames, ti)
    requires frames[m].fields[ti].missing || Output(frames[m].fields[ti], allDims).Err?
    requires Filled(frames, ti, allDims, m, prev) && prev == Ok(X + Missing(Product(allDims)) + R)
    requires Flatten(Blocks(frames, ti, allDims, n) + MissingBlocks(|frames| - n, Product(allDims)))
               == X + FrameBlock(frames[m].fields[ti], allDims) + R
    ensures Filled(frames, ti, allDims, n, FillFrame(prev, frames[m].fields[ti], allDims, g, base))
  {
  }

  /** Once frame `m` can be built as well and its buffer replaced its
      missing block, the pass holds the blocks up to `n`. */
  lemma FilledAfterWrite(frames: seq<DataFrame>, ti: nat, allDims: seq<nat>, m: nat, n: nat,
                         prev: Result<seq<Value>, QueryError>, next: Result<seq<Value>, QueryError>,
                         X: seq<Value>, R: seq<Value>)
    requires m + 1 == n <= |frames| && HasField(frames, ti)
    requires !frames[m].fields[ti].missing && Output(frames[m].fields[ti], allDims).Ok?
    requires Filled(frames, ti, allDims, m, prev) && prev.Ok?
    requires next == Ok(X + Output(frames[m].fields[ti], allDims).value + R)
    requires Flatten(Blocks(frames, ti, allDims, n) + MissingBlocks(|frames| - n, Product(allDims)))
               == X + FrameBlock(frames[m].fields[ti], allDims) + R
    ensures Filled(frames, ti, allDims, n, next)
  {
    assert forall j :: 0 <= j < m ==> FrameOk(frames[j].fields[ti], allDims);
  }

  /** The result before and after frame `m`, as the blocks before it, its
      block, and the missing blocks after it. */
  lemma BlocksShift(frames: seq<DataFrame>, ti: nat, allDims: seq<nat>, m: nat, n: nat)
    requires m + 1 == n <= |frames| && HasField(frames, ti)
    ensures var B := Product(allDims);
      var X := Flatten(Blocks(frames, ti, allDims, m));
      var R := Flatten(MissingBlocks(|frames| - n, B));
      && |X| == m * B
      && Flatten(Blocks(frames, ti, allDims, m) + MissingBlocks(|frames| - m, B)) == X + Missing(B) + R
      && Flatten(Blocks(frames, ti, allDims, n) + MissingBlocks(|frames| - n, B))
           == X + FrameBlock(frames[m].fields[ti], allDims) + R
  {
    var B := Product(allDims);
    var before := Blocks(frames, ti, allDims, m);
    var rest := MissingBlocks(|frames| - n, B);
    var f := frames[m].fields[ti];
    assert MissingBlocks(|frames| - m, B) == [Missing(B)] + rest;
    assert Blocks(frames, ti, allDims, n) == before + [FrameBlock(f, allDims)];
    FlattenAround(before, Missing(B), rest);
    FlattenAround(before, FrameBlock(f, allDims), rest);
    FlattenLength(before, B);
  }

  /** A present field whose buffer can be built replaces the missing block
      at `base` with that buffer. */
  lemma FillFrameWrites(d: seq<Value>, f: DataField, allDims: seq<nat>, g: nat, base: nat, rowLength: nat,
                        X: seq<Value>, R: seq<Value>)
    requires !f.missing && Output(f, allDims).Ok? && g <= |allDims| && (0 < g ==> g <= |f.seqCounts|)
    requires 0 < g ==> rowLength == Product(allDims[g..])
    requires d == X + Missing(Product(allDims)) + R && |X| == base
    ensures FillFrame(Ok(d), f, allDims, g, base) == Ok(X + Output(f, allDims).value + R)
  {
    var out := Output(f, allDims).value;
    AroundMiddle(X, Missing(Product(allDims)), R, |out|);
    FrameRowsOf(f, allDims, g);
    WriteFrame(d, base, out, allDims, g, rowLength);
  }

  /** The parts before and after the middle of `X + M + R`. */
  lemma AroundMiddle(X: seq<Value>, M: seq<Value>, R: seq<Value>, w: nat)
    requires |M| == w
    ensures (X + M + R)[..|X|] == X && (X + M + R)[|X| + w..] == R
  {
  }

  /** Putting rows together around one row in the middle. */
  lemma FlattenAround(a: seq<seq<Value>>, x: seq<Value>, c: seq<seq<Value>>)
    ensures Flatten(a + [x] + c) == Flatten(a) + x + Flatten(c)
    ensures Flatten(a + ([x] + c)) == Flatten(a) + x + Flatten(c)
  {
    FlattenConcat(a, [x] + c);
    assert ([x] + c)[0] == x && ([x] + c)[1..] == c;
    assert a + [x] + c == a + ([x] + c);
  }

  lemma {:induction false} FlattenConcat(a: seq<seq<Value>>, b: seq<seq<Value>>)
    ensures Flatten(a + b) == Flatten(a) + Flatten(b)
  {
    if a == [] {
      assert a + b == b;
    } else {
      assert (a + b)[0] == a[0] && (a + b)[1..] == a[1..] + b;
      FlattenConcat(a[1..], b);
    }
  }

  /** The rows `getRowsForField` cuts a buffer into when the group-by is no
      deeper than the field: the whole buffer, or its grouped rows. */
  function RowsOf(out: seq<Value>, allDims: seq<nat>, g: nat): seq<seq<Value>>
    requires g <= |allDims| && |out| == Product(allDims)
  {
    if g == 0 then [out] else GroupRows(out, allDims, g)
  }

  lemma FrameRowsOf(f: DataField, allDims: seq<nat>, g: nat)
    requires g <= |allDims| && (0 < g ==> g <= |f.seqCounts|) && Output(f, allDims).Ok?
    ensures GetRowsForField(f, allDims, g) == Ok(RowsOf(Output(f, allDims).value, allDims, g))
  {
  }

  /** A frame's rows, written from `base`, put its buffer there whole. */
  lemma WriteFrame(d: seq<Value>, base: nat, out: seq<Value>, allDims: seq<nat>, g: nat, rowLength: nat)
    requires g <= |allDims| && |out| == Product(allDims) && base + |out| <= |d|
    requires 0 < g ==> rowLength == Product(allDims[g..])
    ensures WriteRows(d, base, RowsOf(out, allDims, g), 0) == Ok(d[..base] + out + d[base + |out|..])
  {
    if g == 0 {
      WriteWhole(d, base, out);
    } else {
      WriteUniformWhole(d, base, GroupRows(out, allDims, g), Product(allDims[g..]), |out|);
    }
  }

  lemma WriteWhole(d: seq<Value>, base: nat, out: seq<Value>)
    requires base + |out| <= |d|
    ensures WriteRows(d, base, [out], 0) == Ok(d[..base] + out + d[base + |out|..])
  {
    var rows := [out];
    assert rows[0..] == rows && rows[1..] == [];
    assert Flatten(rows) == out;
    WriteRowsUniform(d, base, rows, |out|, 0);
    assert base + 0 * |out| == base && base + |rows| * |out| == base + |out|;
  }

  /** Rows of one width, written from `base`, replace that stretch of the
      buffer with the rows put together. */
  lemma WriteUniformWhole(d: seq<Value>, base: nat, rows: seq<seq<Value>>, w: nat, len: nat)
    requires forall k :: 0 <= k < |rows| ==> |rows[k]| == w
    requires |Flatten(rows)| == len && base + len <= |d|
    ensures WriteRows(d, base, rows, 0) == Ok(d[..base] + Flatten(rows) + d[base + len..])
  {
    FlattenLength(rows, w);
    WriteRowsUniform(d, base, rows, w, 0);
    assert rows[0..] == rows;
    assert base + 0 * w == base;
  }

  lemma MissingConcat(a: nat, b: nat)
    ensures Missing(a + b) == Missing(a) + Missing(b)
  {
  }

  lemma FlattenMissing(k: nat, B: nat)
    ensures Flatten(MissingBlocks(k, B)) == Missing(k * B)
  {
    if k > 0 {
      var bs := MissingBlocks(k, B);
      assert bs[1..] == MissingBlocks(k - 1, B);
      FlattenMissing(k - 1, B);
      MulSucc(k - 1, B);
      MissingConcat(B, (k - 1) * B);
    } else {
      assert MissingBlocks(0, B) == [];
    }
  }

  // ---------------------------------------------------------------------------
  // getRawValues

  /** `slice(dims, exportDims)` of VectorMath.h: the sizes at the exported
      indices, in their order. */
  function Slice(dims: seq<nat>, idxs: seq<int>): (r: Result<seq<nat>, QueryError>)
    ensures r.Ok? <==> forall i :: 0 <= i < |idxs| ==> 0 <= idxs[i] < |dims|
    ensures r.Err? ==> r == Err(ExportDimOutOfRange)
    ensures r.Ok? ==> |r.value| == |idxs| && forall i :: 0 <= i < |idxs| ==> r.value[i] == dims[idxs[i]]
  {
    if forall i :: 0 <= i < |idxs| ==> 0 <= idxs[i] < |dims| then
      Ok(seq(|idxs|, i requires 0 <= i < |idxs| => dims[idxs[i]]))
    else Err(ExportDimOutOfRange)
  }

  /** Where the target and group-by fields sit in the frames, and the pass
      over the frames. */
  datatype Layout = Layout(ti: nat, gi: Option<nat>, fold: DimsFold)

  /** The group-by field's index, or none when no group-by is asked for. */
  function GroupByIndex(frame: DataFrame, groupByField: string): (r: Result<Option<nat>, QueryError>)
    ensures groupByField == "" ==> r == Ok(None)
    ensures groupByField != "" ==> r == (match FieldIndex(frame, groupByField)
                                         case None => Err(UnknownField(groupByField))
                                         case Some(k) => Ok(Some(k)))
  {
    if groupByField == "" then Ok(None)
    else match FieldIndex(frame, groupByField)
      case None => Err(UnknownField(groupByField))
      case Some(k) => Ok(Some(k))
  }

  /** The field lookups in the first frame and the pass over all frames. */
  function LayoutOf(rs: ResultSet, fieldName: string, groupByField: string): (r: Result<Layout, QueryError>)
    requires FramesShaped(rs)
    ensures rs.frames == [] ==> r == Err(NoFrames)
    ensures rs.frames != [] && FieldIndex(rs.frames[0], fieldName).None? ==> r == Err(UnknownField(fieldName))
    ensures r.Ok? ==> && rs.frames != [] && HasField(rs.frames, r.value.ti)
                      && FieldIndex(rs.frames[0], fieldName) == Some(r.value.ti)
                      && (r.value.gi.None? <==> groupByField == "")
                      && (r.value.gi.Some? ==> && HasField(rs.frames, r.value.gi.value)
                                               && FieldIndex(rs.frames[0], groupByField) == r.value.gi)
                      && FoldFrames(rs.frames, |rs.frames|, r.value.ti, r.value.gi) == Ok(r.value.fold)
                      && r.value.fold.dimsList == DimsList(Targets(rs.frames, r.value.ti))
  {
    if rs.frames == [] then Err(NoFrames)
    else
      match FieldIndex(rs.frames[0], fieldName)
      case None => Err(UnknownField(fieldName))
      case Some(ti) =>
        var gi :- GroupByIndex(rs.frames[0], groupByField);
        assert HasField(rs.frames, ti) && (gi.Some? ==> HasField(rs.frames, gi.value)) by {
          assert |rs.frames[0].fields| == |rs.names|;
        }
        var fold :- FoldFrames(rs.frames, |rs.frames|, ti, gi);
        FoldFramesDimsList(rs.frames, |rs.frames|, ti, gi);
        assert Targets(rs.frames, ti)[..|rs.frames|] == Targets(rs.frames, ti);
        Ok(Layout(ti, gi, fold))
  }

  /** The values, dimensions and dimension paths `getRawValues` fills in. */
  datatype RawValues = RawValues(data: seq<Value>, dims: seq<nat>, dimPaths: seq<string>)

  /** The rest of `getRawValues` once the dimensions are fixed: an
      all-missing result of `dims[0] * frames` rows, each frame's rows
      written at its offset, the row count put in front, and the sizes cut
      to the export dimensions when there is more than one frame. */
  function RawValuesFor(rs: ResultSet, lay: Layout, shape: Shape): (r: Result<RawValues, QueryError>)
    requires rs.frames != [] && HasField(rs.frames, lay.ti)
    ensures shape.dims == [] ==> r == Err(NoDimensions)
    ensures r.Ok? ==> shape.dims != [] && |r.value.data| == |rs.frames| * Product(shape.dims)
    ensures r.Ok? ==> r.value.dimPaths == lay.fold.dimPaths
    ensures r.Ok? && |rs.frames| == 1 ==> r.value.dims == shape.dims
    ensures r.Ok? && |rs.frames| > 1 ==>
              && |r.value.dims| == |shape.exportDims|
              && (forall i :: 0 <= i < |shape.exportDims| ==> 0 <= shape.exportDims[i] < |shape.dims|)
  {
    if shape.dims == [] then Err(NoDimensions)
    else
      var frameRows := shape.dims[0];
      var rowLength := Product(shape.dims[1..]);
      AllFramesLength(shape.dims, |rs.frames|);
      var data :- FillFrames(Missing(FrameBase(frameRows, |rs.frames|, rowLength)), rs.frames, lay.ti, shape.allDims,
                             lay.fold.groupbyIdx, frameRows, rowLength, |rs.frames|);
      var outDims :- OutputDims(shape, |rs.frames|);
      Ok(RawValues(data, outDims, lay.fold.dimPaths))
  }

  /** The row count of all frames put in front of the sizes, cut to the
      export dimensions when there is more than one frame. */
  function OutputDims(shape: Shape, frames: nat): (r: Result<seq<nat>, QueryError>)
    requires shape.dims != [] && frames > 0
    ensures frames == 1 ==> r == Ok(shape.dims)
    ensures frames > 1 ==> (r.Ok? <==> forall i :: 0 <= i < |shape.exportDims| ==> 0 <= shape.exportDims[i] < |shape.dims|)
    ensures frames > 1 && r.Ok? ==> |r.value| == |shape.exportDims|
  {
    var dims := [TotalRows(shape.dims[0], frames)] + shape.dims[1..];
    assert frames == 1 ==> dims == shape.dims;
    if frames > 1 then Slice(dims, shape.exportDims) else Ok(dims)
  }

  /** `getRawValues`: no frames or an unknown field is an error; otherwise
      the dimensions `ShapeOf` computes decide the size of the result. */
  function GetRawValues(rs: ResultSet, fieldName: string, groupByField: string): (r: Result<RawValues, QueryError>)
    requires FramesShaped(rs)
    ensures rs.frames == [] ==> r == Err(NoFrames)
    ensures rs.frames != [] && FieldIndex(rs.frames[0], fieldName).None? ==> r == Err(UnknownField(fieldName))
    ensures r.Ok? ==> LayoutOf(rs, fieldName, groupByField).Ok?
    ensures r.Ok? ==> var s := ShapeOf(LayoutOf(rs, fieldName, groupByField).value.fold);
      && s.dims != []
      && |r.value.data| == |rs.frames| * Product(s.dims)
      && (|rs.frames| == 1 ==> r.value.dims == s.dims && Product(r.value.dims) == |r.value.data|)
  {
    var lay :- LayoutOf(rs, fieldName, groupByField);
    RawValuesFor(rs, lay, ShapeOf(lay.fold))
  }

  /** `getRawValues` with every collapsed size kept at 1 or more: it agrees
      with the code unless the group-by is deeper than the target. */
  function GetRawValuesCorrected(rs: ResultSet, fieldName: string, groupByField: string): (r: Result<RawValues, QueryError>)
    requires FramesShaped(rs)
    ensures rs.frames == [] ==> r == Err(NoFrames)
    ensures rs.frames != [] && FieldIndex(rs.frames[0], fieldName).None? ==> r == Err(UnknownField(fieldName))
    ensures r.Ok? ==> LayoutOf(rs, fieldName, groupByField).Ok?
    ensures r.Ok? ==> var s := ShapeCorrected(LayoutOf(rs, fieldName, groupByField).value.fold);
      && s.dims != []
      && |r.value.data| == |rs.frames| * Product(s.dims)
      && (|rs.frames| == 1 ==> r.value.dims == s.dims && Product(r.value.dims) == |r.value.data|)
    ensures var lay := LayoutOf(rs, fieldName, groupByField);
      lay.Ok? && lay.value.fold.groupbyIdx <= |lay.value.fold.dimsList| ==> r == GetRawValues(rs, fieldName, groupByField)
  {
    var lay :- LayoutOf(rs, fieldName, groupByField);
    RawValuesFor(rs, lay, ShapeCorrected(lay.fold))
  }

  /** Unless the group-by is deeper than the target field, the result is
      every frame's dense buffer in frame order, the missing value standing
      in for a missing field; it is built exactly when there is a
      dimension, every present frame's buffer fits, and, with more than one
      frame, every export dimension exists. */
  lemma GetRawValuesBlocks(rs: ResultSet, fieldName: string, groupByField: string)
    requires FramesShaped(rs) && LayoutOf(rs, fieldName, groupByField).Ok?
    requires var lay := LayoutOf(rs, fieldName, groupByField).value;
      && lay.fold.groupbyIdx <= |lay.fold.dimsList|
      && DeepEnough(rs.frames, lay.ti, lay.fold.groupbyIdx)
    ensures var lay := LayoutOf(rs, fieldName, groupByField).value;
      var s := ShapeOf(lay.fold);
      var r := GetRawValues(rs, fieldName, groupByField);
      && (r.Ok? <==> && s.dims != []
                     && (forall j :: 0 <= j < |rs.frames| ==> FrameOk(rs.frames[j].fields[lay.ti], s.allDims))
                     && (|rs.frames| > 1 ==> forall i :: 0 <= i < |s.exportDims| ==> 0 <= s.exportDims[i] < |s.dims|))
      && (r.Ok? ==> r.value.data == Flatten(Blocks(rs.frames, lay.ti, s.allDims, |rs.frames|)))
  {
    var lay := LayoutOf(rs, fieldName, groupByField).value;
    RawValuesBlocks(rs, lay, ShapeOf(lay.fold));
  }

  lemma RawValuesBlocks(rs: ResultSet, lay: Layout, s: Shape)
    requires rs.frames != [] && HasField(rs.frames, lay.ti)
    requires lay.fold.groupbyIdx <= |lay.fold.dimsList| && DeepEnough(rs.frames, lay.ti, lay.fold.groupbyIdx)
    requires s == ShapeOf(lay.fold)
    ensures var r := RawValuesFor(rs, lay, s);
      && (r.Ok? <==> && s.dims != []
                     && (forall j :: 0 <= j < |rs.frames| ==> FrameOk(rs.frames[j].fields[lay.ti], s.allDims))
                     && (|rs.frames| > 1 ==> forall i :: 0 <= i < |s.exportDims| ==> 0 <= s.exportDims[i] < |s.dims|))
      && (r.Ok? ==> r.value.data == Flatten(Blocks(rs.frames, lay.ti, s.allDims, |rs.frames|)))
  {
    var g := lay.fold.groupbyIdx;
    if s.dims != [] {
      var frameRows := s.dims[0];
      var rowLength := Product(s.dims[1..]);
      var B := Product(s.allDims);
      assert frameRows * rowLength == B;
      if g > 0 {
        assert s.dims[1..] == s.allDims[g..];
      }
      FillFramesBlocks(rs.frames, lay.ti, s.allDims, g, frameRows, rowLength, |rs.frames|);
      FrameBaseIs(frameRows, |rs.frames|, rowLength);
      FlattenMissing(|rs.frames|, B);
      assert Blocks(rs.frames, lay.ti, s.allDims, |rs.frames|) + MissingBlocks(0, B) == Blocks(rs.frames, lay.ti, s.allDims, |rs.frames|);
    }
  }

  // ---------------------------------------------------------------------------
  // get

  /** Each of the first `n` dimension paths with its trailing white space
      removed; a path list shorter than the dimensions cannot be read. */
  function TrimPaths(dimPaths: seq<string>, n: nat): (r: Result<seq<string>, QueryError>)
    ensures r.Ok? <==> n <= |dimPaths|
    ensures r.Err? ==> r == Err(MissingPath)
    ensures r.Ok? ==> |r.value| == n && forall i :: 0 <= i < n ==>
      && r.value[i] <= dimPaths[i]
      && (r.value[i] == [] || !IsSpace(r.value[i][|r.value[i]| - 1]))
      && (forall k :: |r.value[i]| <= k < |dimPaths[i]| ==> IsSpace(dimPaths[i][k]))
  {
    if n <= |dimPaths| then Ok(seq(n, i requires 0 <= i < n => TrimRight(dimPaths[i]))) else Err(MissingPath)
  }

  /** What `get` hands back: the element type the unit selects, the values,
      the dimensions, both field names and the trimmed dimension paths. */
  datatype DataObject = DataObject(
    elementType: ElementType,
    data: seq<Value>,
    dims: seq<nat>,
    fieldName: string,
    groupByFieldName: string,
    dimPaths: seq<string>)

  /** What `get` makes of the raw values: their error when they have one;
      otherwise a data object exactly when every dimension has a path,
      holding the values and sizes unchanged, both field names, the paths
      trimmed, and the element type selected by the unit of the first
      field with the name. */
  ghost predicate Presents(rs: ResultSet, raw: Result<RawValues, QueryError>, fieldName: string, groupByFieldName: string,
                     r: Result<DataObject, QueryError>)
  {
    && (raw.Err? ==> r == Err(raw.error))
    && (raw.Ok? ==> (r.Ok? <==> |raw.value.dims| <= |raw.value.dimPaths|))
    && (r.Ok? ==> raw.Ok? && rs.frames != []
                  && r.value.data == raw.value.data && r.value.dims == raw.value.dims
                  && r.value.fieldName == fieldName && r.value.groupByFieldName == groupByFieldName
                  && |r.value.dimPaths| == |raw.value.dims|
                  && (forall i :: 0 <= i < |raw.value.dims| ==> r.value.dimPaths[i] == TrimRight(raw.value.dimPaths[i]))
                  && (forall i: nat :: FirstNamed(rs.frames[0].fields, fieldName, i) ==>
                        r.value.elementType == ElementTypeOf(FieldUnit(rs.frames[0].fields[i]))))
  }

  /** `get`: the raw values of the field, typed by its unit, with one
      trimmed path per dimension. */
  function Get(rs: ResultSet, fieldName: string, groupByFieldName: string): (r: Result<DataObject, QueryError>)
    requires FramesShaped(rs)
    ensures Presents(rs, GetRawValues(rs, fieldName, groupByFieldName), fieldName, groupByFieldName, r)
  {
    var raw :- GetRawValues(rs, fieldName, groupByFieldName);
    match Unit(rs, fieldName)
    case Err(e) => Err(e)
    case Ok(unit) =>
      var paths :- TrimPaths(raw.dimPaths, |raw.dims|);
      Ok(DataObject(ElementTypeOf(unit), raw.data, raw.dims, fieldName, groupByFieldName, paths))
  }

  /** `get` over the corrected raw values: the same as the code's unless
      the group-by is deeper than the target. */
  function GetCorrected(rs: ResultSet, fieldName: string, groupByFieldName: string): (r: Result<DataObject, QueryError>)
    requires FramesShaped(rs)
    ensures Presents(rs, GetRawValuesCorrected(rs, fieldName, groupByFieldName), fieldName, groupByFieldName, r)
    ensures var lay := LayoutOf(rs, fieldName, groupByFieldName);
      lay.Ok? && lay.value.fold.groupbyIdx <= |lay.value.fold.dimsList| ==> r == Get(rs, fieldName, groupByFieldName)
  {
    var raw :- GetRawValuesCorrected(rs, fieldName, groupByFieldName);
    match Unit(rs, fieldName)
    case Err(e) => Err(e)
    case Ok(unit) =>
      var paths :- TrimPaths(raw.dimPaths, |raw.dims|);
      Ok(DataObject(ElementTypeOf(unit), raw.data, raw.dims, fieldName, groupByFieldName, paths))
  }

  // ---------------------------------------------------------------------------
  // A group-by level without repeats

  /** One frame: the target field `t` has one entry at the subset level,
      holding `values`; the group-by field `g` sits one level deeper and has
      no repeats there. */
  function ZeroGroupBySet(targetMissing: bool, values: seq<Value>): (rs: ResultSet)
    ensures FramesShaped(rs)
  {
    var t := DataField(DefaultTarget.(name := "t", dimPaths := ["*"], exportDimIdxs := [0]), values, [[1]], targetMissing);
    var gf := DataField(DefaultTarget.(name := "g", dimPaths := ["*", "*/G"], exportDimIdxs := [0, 1]), [], [[1], [0]], false);
    ResultSet(["t", "g"], [DataFrame([t, gf])])
  }

  /** The lookups find `t` and `g`; the pass records a depth of 2 and no
      group-by elements. */
  lemma ZeroGroupByLayout(targetMissing: bool, values: seq<Value>)
    ensures LayoutOf(ZeroGroupBySet(targetMissing, values), "t", "g") == Ok(Layout(0, Some(1), DimsFold([1], ["*/G"], [0], 2, 0)))
  {
    var rs := ZeroGroupBySet(targetMissing, values);
    var fields := rs.frames[0].fields;
    assert FieldIndex(rs.frames[0], "t") == Some(0);
    assert FieldName(fields[0]) == "t" && "t"[0] != "g"[0];
    assert FieldIndexFrom(fields, "g", 1) == Some(1);
    assert FieldIndex(rs.frames[0], "g") == Some(1);
    assert ProductOfMaxes([[1], [0]]) == 0;
    assert MergeCounts([], [[1]]) == [1];
    var init := InitialFold(fields[0]);
    assert FoldFrames(rs.frames, 0, 0, Some(1)) == Ok(init);
    assert FoldStep(init, fields[0], Some(fields[1])) == Ok(DimsFold([1], ["*/G"], [0], 2, 0));
  }

  /** As written, the collapsed size is the group-by field's element count,
      0 here, so the target's one value has nowhere to go: its insertion
      count is negative, which the code converts to `size_t`. */
  lemma ZeroGroupByAsWritten()
    ensures var lay := LayoutOf(ZeroGroupBySet(false, [Number(1.0)]), "t", "g");
      && lay.Ok? && lay.value.fold.totalGroupby == 0
      && ShapeOf(lay.value.fold).allDims == [0]
    ensures GetRawValues(ZeroGroupBySet(false, [Number(1.0)]), "t", "g") == Err(NegativeInsert)
  {
    var rs := ZeroGroupBySet(false, [Number(1.0)]);
    var t := rs.frames[0].fields[0];
    ZeroGroupByLayout(false, [Number(1.0)]);
    assert LevelInserts([0], [1], 0)[0] == -1;
    assert Inserts([0], t.seqCounts)[0][0] == -1;
    assert Output(t, [0]) == Err(NegativeInsert);
  }

  /** When the target field is missing from the frame, nothing is written:
      as written, the result is empty with the one size 0. */
  lemma ZeroGroupByMissing()
    ensures GetRawValues(ZeroGroupBySet(true, [Number(1.0)]), "t", "g") == Ok(RawValues([], [0], ["*/G"]))
  {
    var rs := ZeroGroupBySet(true, [Number(1.0)]);
    ZeroGroupByLayout(true, [Number(1.0)]);
    var fold := DimsFold([1], ["*/G"], [0], 2, 0);
    assert ShapeOf(fold) == Shape([0], [0], [0]);
    assert FrameBase(0, 1, 1) == 0;
    assert FillFrames(Missing(0), rs.frames, 0, [0], 2, 0, 1, 1) == Ok([]);
  }

  /** When the target field is present but holds no values, its insertion
      count is negative too, yet nothing is placed: as written, the result
      is empty with the one size 0. */
  lemma ZeroGroupByNoValues()
    ensures GetRawValues(ZeroGroupBySet(false, []), "t", "g") == Ok(RawValues([], [0], ["*/G"]))
  {
    var rs := ZeroGroupBySet(false, []);
    var t := rs.frames[0].fields[0];
    ZeroGroupByLayout(false, []);
    var fold := DimsFold([1], ["*/G"], [0], 2, 0);
    assert ShapeOf(fold) == Shape([0], [0], [0]);
    assert LevelInserts([0], [1], 0)[0] == -1;
    assert Inserts([0], t.seqCounts)[0][0] == -1;
    assert Output(t, [0]) == Ok([]);
    assert GetRowsForField(t, [0], 2) == Ok([]);
    assert FrameBase(0, 1, 1) == 0;
    assert FillFrames(Missing(0), rs.frames, 0, [0], 2, 0, 1, 1) == Ok([]);
  }

  /** With a size of 1, the target's value fills the one slot of its buffer
      and becomes the one collapsed row. */
  lemma ZeroGroupByRows(t: DataField)
    requires t.data == [Number(1.0)] && t.seqCounts == [[1]]
    ensures GetRowsForField(t, [1], 2) == Ok([[Number(1.0)]])
  {
    assert LevelInserts([1], [1], 0)[0] == 0;
    assert LevelInserts([1], [1], 0) == [0];
    assert Inserts([1], t.seqCounts)[0] == [0];
    assert Inserts([1], t.seqCounts) == [[0]];
    assert LevelShifts([1], [0], 0, 0) == [];
    assert AllShifts([1], [[0]], 1) == [];
    assert InflatedIndices(1, [1], t.seqCounts) == [0];
    assert Missing(1)[0 := Number(1.0)] == [Number(1.0)];
    assert Output(t, [1]) == Ok([Number(1.0)]);
    assert Product([1]) == 1 && MaxCounts(t.seqCounts) == 1;
    var rows := CollapsedRows([Number(1.0)], 1, 1);
    assert rows.Ok? && |rows.value| == 1 && rows.value[0] == [Number(1.0)];
    assert rows.value == [[Number(1.0)]];
  }

  /** With the collapsed size kept at 1, the value lands in the one row. */
  lemma ZeroGroupByCorrected()
    ensures GetRawValuesCorrected(ZeroGroupBySet(false, [Number(1.0)]), "t", "g") == Ok(RawValues([Number(1.0)], [1], ["*/G"]))
  {
    var rs := ZeroGroupBySet(false, [Number(1.0)]);
    ZeroGroupByLayout(false, [Number(1.0)]);
    var lay := Layout(0, Some(1), DimsFold([1], ["*/G"], [0], 2, 0));
    ZeroGroupByShape(lay.fold);
    ZeroGroupByFill();
  }

  /** The collapsed size of 1 is the only dimension. */
  lemma ZeroGroupByShape(fold: DimsFold)
    requires fold == DimsFold([1], ["*/G"], [0], 2, 0)
    ensures ShapeCorrected(fold) == Shape([1], [1], [0])
  {
  }

  /** The one frame writes its one row over the one missing value. */
  lemma ZeroGroupByFill()
    ensures FillFrames(Missing(FrameBase(1, 1, 1)), ZeroGroupBySet(false, [Number(1.0)]).frames, 0, [1], 2, 1, 1, 1) == Ok([Number(1.0)])
  {
    var rs := ZeroGroupBySet(false, [Number(1.0)]);
    ZeroGroupByRows(rs.frames[0].fields[0]);
    assert Splice(Missing(1), 0, [Number(1.0)]) == [Number(1.0)];
    assert WriteRows(Missing(1), 0, [[Number(1.0)]], 0) == Ok([Number(1.0)]);
  }
}
