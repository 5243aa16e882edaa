/** `QueryRunner` of the BUFR query code: resolving the query set to targets
    in the current subset (cached per subset variant), collecting each
    target's values and repeat counts into a new frame of the result set,
    and the recursive walk that keeps only the repeats a query's filters
    select. The subset table, the node lookup table and `Target::setPath`
    are not part of this model and come in as parameters. */
module QueryRunners {
  import opened Wrappers
  import opened QueryTypes
  import opened ResultSets
  import Decimal

  /** Where the C++ code has undefined behaviour: `srcData[offset]` past the
      end of the node's values. */
  datatype RunError = ReadOutOfRange

  // ---------------------------------------------------------------------------
  // The filtered walk: makeFilteredData and _makeFilteredData

  /** The repeat counts and filters the walk runs over: the walk reads
      `filters[depth]` at every level of `origCounts`, and both its leaf test
      `depth > origCounts.size() - 1` and `origCounts.back()` need at least
      one level. */
  predicate Plan(counts: seq<seq<nat>>, filters: seq<seq<nat>>) {
    |counts| >= 1 && |filters| >= |counts|
  }

  /** The state the walk threads through: the source positions kept so far,
      in order, and the next source position (`offset`). */
  datatype Walked = Walked(kept: seq<nat>, offset: nat)

  /** `_makeFilteredData` at one level. Past the last level is a leaf: its
      source value is kept unless the branch is skipped, and the offset moves
      on by one either way. */
  function Walk(counts: seq<seq<nat>>, filters: seq<seq<nat>>, depth: nat, skip: bool, offset: nat): (w: Walked)
    requires Plan(counts, filters) && depth <= |counts|
    ensures w.offset >= offset
    decreases |counts| - depth, 2, 0
  {
    if depth == |counts| then Walked(if skip then [] else [offset], offset + 1)
    else if filters[depth] == [] then Repeat(counts, filters, depth, skip, offset, |counts[depth]|)
    else Entries(counts, filters, depth, skip, offset, |counts[depth]|)
  }

  /** An unfiltered level: the next level once per entry of the level's
      counts, with the skip flag passed through. */
  function Repeat(counts: seq<seq<nat>>, filters: seq<seq<nat>>, depth: nat, skip: bool, offset: nat, k: nat): (w: Walked)
    requires Plan(counts, filters) && depth < |counts|
    ensures w.offset >= offset
    decreases |counts| - depth, 1, k
  {
    if k == 0 then Walked([], offset)
    else
      var a := Repeat(counts, filters, depth, skip, offset, k - 1);
      var b := Walk(counts, filters, depth + 1, skip, a.offset);
      Walked(a.kept + b.kept, b.offset)
  }

  /** A filtered level: the first `e` entries of the level's counts. */
  function Entries(counts: seq<seq<nat>>, filters: seq<seq<nat>>, depth: nat, skip: bool, offset: nat, e: nat): (w: Walked)
    requires Plan(counts, filters) && depth < |counts| && e <= |counts[depth]|
    ensures w.offset >= offset
    decreases |counts| - depth, 1, e
  {
    if e == 0 then Walked([], offset)
    else
      var a := Entries(counts, filters, depth, skip, offset, e - 1);
      var b := Counting(counts, filters, depth, skip, a.offset, counts[depth][e - 1]);
      Walked(a.kept + b.kept, b.offset)
  }

  /** One entry of a filtered level, repeats `1..n`: repeat `count` goes on
      skipped when its branch already is or when the filter does not list
      `count`. */
  function Counting(counts: seq<seq<nat>>, filters: seq<seq<nat>>, depth: nat, skip: bool, offset: nat, n: nat): (w: Walked)
    requires Plan(counts, filters) && depth < |counts|
    ensures w.offset >= offset
    decreases |counts| - depth, 0, n
  {
    if n == 0 then Walked([], offset)
    else
      var a := Counting(counts, filters, depth, skip, offset, n - 1);
      var b := Walk(counts, filters, depth + 1, skip || n !in filters[depth], a.offset);
      Walked(a.kept + b.kept, b.offset)
  }

  /** How many branches one node of a level has: one per entry at an
      unfiltered level, one per repeat of every entry at a filtered one. */
  function Width(counts: seq<seq<nat>>, filters: seq<seq<nat>>, d: nat): nat
    requires Plan(counts, filters) && d < |counts|
  {
    if filters[d] == [] then |counts[d]| else Sum(counts[d])
  }

  /** How many leaves lie below one node of level `depth`. */
  function Leaves(counts: seq<seq<nat>>, filters: seq<seq<nat>>, depth: nat): nat
    requires Plan(counts, filters) && depth <= |counts|
    decreases |counts| - depth
  {
    if depth == |counts| then 1 else Width(counts, filters, depth) * Leaves(counts, filters, depth + 1)
  }

  /** How many of the repeats `1..n` a filter lists. */
  function Hits(filter: seq<nat>, n: nat): (h: nat)
    ensures h <= n
    ensures filter == [] ==> h == 0
  {
    if n == 0 then 0 else Hits(filter, n - 1) + (if n in filter then 1 else 0)
  }

  /** Entry by entry, how many repeats survive a filter: the counts the
      filtered values actually have. */
  function FilteredCounts(filter: seq<nat>, cs: seq<nat>): (r: seq<nat>)
    ensures |r| == |cs|
    ensures forall k :: 0 <= k < |cs| ==> r[k] <= cs[k]
  {
    seq(|cs|, k requires 0 <= k < |cs| => Hits(filter, cs[k]))
  }

  /** How many branches of one node of a level are kept. */
  function KeptWidth(counts: seq<seq<nat>>, filters: seq<seq<nat>>, d: nat): nat
    requires Plan(counts, filters) && d < |counts|
  {
    if filters[d] == [] then |counts[d]| else Sum(FilteredCounts(filters[d], counts[d]))
  }

  /** How many leaves below one unskipped node of level `depth` are kept. */
  function KeptLeaves(counts: seq<seq<nat>>, filters: seq<seq<nat>>, depth: nat): nat
    requires Plan(counts, filters) && depth <= |counts|
    decreases |counts| - depth
  {
    if depth == |counts| then 1 else KeptWidth(counts, filters, depth) * KeptLeaves(counts, filters, depth + 1)
  }

  /** Strictly increasing positions, all in `[lo, hi)`. */
  predicate Within(kept: seq<nat>, lo: nat, hi: nat) {
    StrictlyIncreasing(kept) && forall i :: 0 <= i < |kept| ==> lo <= kept[i] < hi
  }

  /** A walk from `offset` that passed `width` leaves and kept `n` of them, in
      order. */
  predicate Spans(w: Walked, offset: nat, width: nat, n: nat) {
    w.offset == offset + width && Within(w.kept, offset, w.offset) && |w.kept| == n
  }

  lemma SpansConcat(a: Walked, b: Walked, offset: nat, x: nat, y: nat, m: nat, n: nat)
    requires Spans(a, offset, x, m) && Spans(b, offset + x, y, n)
    ensures Spans(Walked(a.kept + b.kept, b.offset), offset, x + y, m + n)
  {
    var c := a.kept + b.kept;
    forall i, j | 0 <= i < j < |c| ensures c[i] < c[j] {
      if j < |a.kept| {
      } else if i >= |a.kept| {
        assert c[i] == b.kept[i - |a.kept|] && c[j] == b.kept[j - |a.kept|];
      } else {
        assert c[i] == a.kept[i] && c[j] == b.kept[j - |a.kept|];
      }
    }
    forall i | 0 <= i < |c| ensures offset <= c[i] < b.offset {
      if i >= |a.kept| {
        assert c[i] == b.kept[i - |a.kept|];
      }
    }
  }

  lemma Distrib(a: nat, b: nat, c: nat)
    ensures (a + b) * c == a * c + b * c
  {
  }

  /** The walk below a node of level `depth` passes exactly `Leaves` leaves,
      keeps them in order, and keeps `KeptLeaves` of them, or none at all
      once the branch is skipped. */
  lemma {:induction false} WalkSpec(counts: seq<seq<nat>>, filters: seq<seq<nat>>, depth: nat, skip: bool, offset: nat)
    requires Plan(counts, filters) && depth <= |counts|
    ensures Spans(Walk(counts, filters, depth, skip, offset), offset, Leaves(counts, filters, depth),
                  if skip then 0 else KeptLeaves(counts, filters, depth))
    decreases |counts| - depth, 2, 0
  {
    if depth < |counts| {
      var L := Leaves(counts, filters, depth + 1);
      var K := KeptLeaves(counts, filters, depth + 1);
      if filters[depth] == [] {
        RepeatSpec(counts, filters, depth, skip, offset, |counts[depth]|);
      } else {
        EntriesSpec(counts, filters, depth, skip, offset, |counts[depth]|);
        assert counts[depth][..|counts[depth]|] == counts[depth];
      }
    }
  }

  lemma {:induction false} RepeatSpec(counts: seq<seq<nat>>, filters: seq<seq<nat>>, depth: nat, skip: bool, offset: nat, k: nat)
    requires Plan(counts, filters) && depth < |counts|
    ensures Spans(Repeat(counts, filters, depth, skip, offset, k), offset, k * Leaves(counts, filters, depth + 1),
                  if skip then 0 else k * KeptLeaves(counts, filters, depth + 1))
    decreases |counts| - depth, 1, k
  {
    if k > 0 {
      var L := Leaves(counts, filters, depth + 1);
      var K := KeptLeaves(counts, filters, depth + 1);
      var a := Repeat(counts, filters, depth, skip, offset, k - 1);
      RepeatSpec(counts, filters, depth, skip, offset, k - 1);
      WalkSpec(counts, filters, depth + 1, skip, a.offset);
      var b := Walk(counts, filters, depth + 1, skip, a.offset);
      SpansConcat(a, b, offset, (k - 1) * L, L, if skip then 0 else (k - 1) * K, if skip then 0 else K);
      Distrib(k - 1, 1, L);
      Distrib(k - 1, 1, K);
    }
  }

  lemma {:induction false} EntriesSpec(counts: seq<seq<nat>>, filters: seq<seq<nat>>, depth: nat, skip: bool, offset: nat, e: nat)
    requires Plan(counts, filters) && depth < |counts| && e <= |counts[depth]|
    ensures Spans(Entries(counts, filters, depth, skip, offset, e), offset,
                  Sum(counts[depth][..e]) * Leaves(counts, filters, depth + 1),
                  if skip then 0 else Sum(FilteredCounts(filters[depth], counts[depth][..e])) * KeptLeaves(counts, filters, depth + 1))
    decreases |counts| - depth, 1, e
  {
    var cs := counts[depth];
    var F := filters[depth];
    if e == 0 {
      assert cs[..0] == [];
      assert FilteredCounts(F, cs[..0]) == [];
    } else {
      var L := Leaves(counts, filters, depth + 1);
      var K := KeptLeaves(counts, filters, depth + 1);
      var n := cs[e - 1];
      var a := Entries(counts, filters, depth, skip, offset, e - 1);
      EntriesSpec(counts, filters, depth, skip, offset, e - 1);
      CountingSpec(counts, filters, depth, skip, a.offset, n);
      var b := Counting(counts, filters, depth, skip, a.offset, n);
      var s := Sum(cs[..e - 1]);
      var h := Sum(FilteredCounts(F, cs[..e - 1]));
      SpansConcat(a, b, offset, s * L, n * L, if skip then 0 else h * K, if skip then 0 else Hits(F, n) * K);
      assert cs[..e][..e - 1] == cs[..e - 1];
      assert Sum(cs[..e]) == s + n;
      var fc := FilteredCounts(F, cs[..e]);
      assert fc[..e - 1] == FilteredCounts(F, cs[..e - 1]);
      assert Sum(fc) == h + Hits(F, n);
      Distrib(s, n, L);
      Distrib(h, Hits(F, n), K);
    }
  }

  lemma {:induction false} CountingSpec(counts: seq<seq<nat>>, filters: seq<seq<nat>>, depth: nat, skip: bool, offset: nat, n: nat)
    requires Plan(counts, filters) && depth < |counts|
    ensures Spans(Counting(counts, filters, depth, skip, offset, n), offset, n * Leaves(counts, filters, depth + 1),
                  if skip then 0 else Hits(filters[depth], n) * KeptLeaves(counts, filters, depth + 1))
    decreases |counts| - depth, 0, n
  {
    if n > 0 {
      var L := Leaves(counts, filters, depth + 1);
      var K := KeptLeaves(counts, filters, depth + 1);
      var F := filters[depth];
      var a := Counting(counts, filters, depth, skip, offset, n - 1);
      CountingSpec(counts, filters, depth, skip, offset, n - 1);
      var s := skip || n !in F;
      WalkSpec(counts, filters, depth + 1, s, a.offset);
      var b := Walk(counts, filters, depth + 1, s, a.offset);
      var h := Hits(F, n - 1);
      var m := if skip then 0 else h * K;
      var k := if s then 0 else K;
      SpansConcat(a, b, offset, (n - 1) * L, L, m, k);
      Distrib(n - 1, 1, L);
      if !skip {
        Distrib(h, 1, K);
        assert Hits(F, n) == h + (if n in F then 1 else 0);
      }
    }
  }

  /** Positions kept in order inside `[lo, hi)` are at most `hi - lo` many. */
  lemma {:induction false} WithinBound(kept: seq<nat>, lo: nat, hi: nat)
    requires lo <= hi && Within(kept, lo, hi)
    ensures |kept| <= hi - lo
    decreases |kept|
  {
    if |kept| > 0 {
      var last := kept[|kept| - 1];
      var init := kept[..|kept| - 1];
      assert forall i :: 0 <= i < |init| ==> init[i] == kept[i] < last;
      WithinBound(init, lo, last);
    }
  }

  /** `n` positions kept in order inside `[lo, lo + n)` are all of them. */
  lemma {:induction false} WithinFull(kept: seq<nat>, lo: nat, n: nat)
    requires Within(kept, lo, lo + n) && |kept| == n
    ensures kept == Range(lo, n)
    decreases n
  {
    if n > 0 {
      var init := kept[..n - 1];
      assert forall i :: 0 <= i < |init| ==> init[i] == kept[i] < kept[n - 1];
      WithinFull(init, lo, n - 1);
      if n > 1 {
        assert init[n - 2] == lo + n - 2;
      }
    }
  }

  /** The positions `lo, lo + 1, …, lo + n - 1`. */
  function Range(lo: nat, n: nat): (r: seq<nat>)
    ensures |r| == n && forall i :: 0 <= i < n ==> r[i] == lo + i
  {
    seq(n, i requires 0 <= i < n => lo + i)
  }

  /** No level from `depth` on has a filter. */
  predicate Unfiltered(filters: seq<seq<nat>>, depth: nat) {
    forall d :: depth <= d < |filters| ==> filters[d] == []
  }

  lemma {:induction false} KeptLeavesUnfiltered(counts: seq<seq<nat>>, filters: seq<seq<nat>>, depth: nat)
    requires Plan(counts, filters) && depth <= |counts| && Unfiltered(filters, depth)
    ensures KeptLeaves(counts, filters, depth) == Leaves(counts, filters, depth)
    decreases |counts| - depth
  {
    if depth < |counts| {
      KeptLeavesUnfiltered(counts, filters, depth + 1);
    }
  }

  /** Without any filter the walk keeps every leaf it passes. */
  lemma WalkUnfiltered(counts: seq<seq<nat>>, filters: seq<seq<nat>>, depth: nat, offset: nat)
    requires Plan(counts, filters) && depth <= |counts| && Unfiltered(filters, depth)
    ensures Walk(counts, filters, depth, false, offset).kept == Range(offset, Leaves(counts, filters, depth))
  {
    WalkSpec(counts, filters, depth, false, offset);
    KeptLeavesUnfiltered(counts, filters, depth);
    WithinFull(Walk(counts, filters, depth, false, offset).kept, offset, Leaves(counts, filters, depth));
  }

  /** `out` is `src` at the strictly increasing positions `idxs`: an
      order-preserving subsequence. */
  predicate Picks(src: seq<Value>, idxs: seq<nat>, out: seq<Value>) {
    |out| == |idxs| && StrictlyIncreasing(idxs) &&
    forall i :: 0 <= i < |idxs| ==> idxs[i] < |src| && out[i] == src[idxs[i]]
  }

  /** `makeFilteredData`: the walk from the top level with offset 0, reading
      each kept position of the node's values. A kept position past the end
      of the values is a read out of range. */
  function MakeFilteredData(src: seq<Value>, counts: seq<seq<nat>>, filters: seq<seq<nat>>): (r: Result<seq<Value>, RunError>)
    requires Plan(counts, filters)
    ensures var w := Walk(counts, filters, 0, false, 0);
            && (r.Ok? <==> w.kept == [] || w.kept[|w.kept| - 1] < |src|)
            && (r.Ok? ==> Picks(src, w.kept, r.value))
            && (r.Ok? ==> |r.value| == KeptLeaves(counts, filters, 0) <= w.offset == Leaves(counts, filters, 0))
  {
    var w := Walk(counts, filters, 0, false, 0);
    WalkSpec(counts, filters, 0, false, 0);
    WithinBound(w.kept, 0, w.offset);
    if forall i | 0 <= i < |w.kept| :: w.kept[i] < |src| then
      Ok(seq(|w.kept|, i requires 0 <= i < |w.kept| => src[w.kept[i]]))
    else
      Err(ReadOutOfRange)
  }

  /** Without any filter the result is the first `Leaves` source values, and
      it fails exactly when there are fewer. */
  lemma FilteredDataUnfiltered(src: seq<Value>, counts: seq<seq<nat>>, filters: seq<seq<nat>>)
    requires Plan(counts, filters) && Unfiltered(filters, 0)
    ensures var n := Leaves(counts, filters, 0);
            MakeFilteredData(src, counts, filters) == if n <= |src| then Ok(src[..n]) else Err(ReadOutOfRange)
  {
    var n := Leaves(counts, filters, 0);
    WalkUnfiltered(counts, filters, 0, 0);
    var r := MakeFilteredData(src, counts, filters);
    if n <= |src| {
      assert r.Ok?;
      assert forall i :: 0 <= i < n ==> r.value[i] == src[i];
      assert r.value == src[..n];
    } else {
      assert Range(0, n)[n - 1] == n - 1;
    }
  }

  // ---------------------------------------------------------------------------
  // collectData

  /** What the node lookup table holds for one node: the repeat counts of its
      level and its values. NodeLookupTable.h is not part of this model, so
      the table built for the current subset is a function of node ids. */
  datatype LookupEntry = LookupEntry(counts: seq<nat>, data: seq<Value>)

  /** A found target's path reaches every level of its `seqPath`: the
      component of level `i + 1` is `path[i + 1]`, and the values come from
      the last component. */
  predicate Resolvable(t: Target) {
    t.nodeIdx != 0 ==> |t.path| > |t.seqPath|
  }

  /** The filter of level `i + 1`. */
  function LevelFilter(t: Target, i: nat): seq<nat>
    requires Resolvable(t) && t.nodeIdx != 0 && i < |t.seqPath|
  {
    t.path[i + 1].queryComponent.filter
  }

  /** The lookup table's repeat counts for level `i + 1`. */
  function LevelCounts(t: Target, lookup: nat -> LookupEntry, i: nat): seq<nat>
    requires Resolvable(t) && t.nodeIdx != 0 && i < |t.seqPath|
  {
    lookup(t.path[i + 1].nodeId).counts
  }

  /** Some level of the target's path has a filter. */
  predicate HasFilter(t: Target)
    requires Resolvable(t) && t.nodeIdx != 0
  {
    exists i :: 0 <= i < |t.seqPath| && LevelFilter(t, i) != []
  }

  /** The values of the target's own node. */
  function Source(t: Target, lookup: nat -> LookupEntry): seq<Value>
    requires Resolvable(t) && t.nodeIdx != 0
  {
    lookup(t.path[|t.path| - 1].nodeId).data
  }

  /** The count the code stores for every entry of a filtered level:
      `max(filter.size(), 1)`, whatever the entry's own repeat count. */
  function FilteredCountsAsWritten(filter: seq<nat>, cs: seq<nat>): (r: seq<nat>)
    ensures |r| == |cs|
    ensures filter != [] ==> forall k :: 0 <= k < |cs| ==> r[k] == |filter|
  {
    var c: nat := MaxNat(|filter|, 1);
    seq(|cs|, k requires 0 <= k < |cs| => c)
  }

  /** `dataField.seqCounts` of a found target: `{1}` for the subset level,
      the lookup counts for an unfiltered level, and for a filtered level one
      count per entry of the lookup counts, either as the code writes it or
      as the number of repeats the filter keeps. */
  function StoredCounts(t: Target, lookup: nat -> LookupEntry, asWritten: bool): (r: seq<seq<nat>>)
    requires Resolvable(t) && t.nodeIdx != 0
    ensures |r| == |t.seqPath| + 1 && r[0] == [1]
  {
    [[1]] + seq(|t.seqPath|, i requires 0 <= i < |t.seqPath| =>
      if LevelFilter(t, i) == [] then LevelCounts(t, lookup, i)
      else if asWritten then FilteredCountsAsWritten(LevelFilter(t, i), LevelCounts(t, lookup, i))
      else FilteredCounts(LevelFilter(t, i), LevelCounts(t, lookup, i)))
  }

  /** Level by level: an unfiltered level stores the lookup counts; a
      filtered one stores one count per lookup entry, `filter.size()` as the
      code writes it, or the number of repeats `1..n` the filter lists. */
  lemma StoredCountsLevels(t: Target, lookup: nat -> LookupEntry, asWritten: bool, i: nat)
    requires Resolvable(t) && t.nodeIdx != 0 && i < |t.seqPath|
    ensures var r := StoredCounts(t, lookup, asWritten);
            var cs := LevelCounts(t, lookup, i);
            && (LevelFilter(t, i) == [] ==> r[i + 1] == cs)
            && (LevelFilter(t, i) != [] ==>
                  |r[i + 1]| == |cs| &&
                  forall k :: 0 <= k < |cs| ==>
                    r[i + 1][k] == if asWritten then |LevelFilter(t, i)| else Hits(LevelFilter(t, i), cs[k]))
  {
  }

  /** The `counts` the walk runs over: the original lookup counts at a
      filtered level and `{1}` at every other. */
  function WalkCounts(t: Target, lookup: nat -> LookupEntry): (r: seq<seq<nat>>)
    requires Resolvable(t) && t.nodeIdx != 0
    ensures |r| == |t.seqPath| + 1 && r[0] == [1]
    ensures forall i :: 0 <= i < |t.seqPath| ==>
              r[i + 1] == if LevelFilter(t, i) == [] then [1] else LevelCounts(t, lookup, i)
  {
    [[1]] + seq(|t.seqPath|, i requires 0 <= i < |t.seqPath| =>
      if LevelFilter(t, i) == [] then [1] else LevelCounts(t, lookup, i))
  }

  /** The `filters` the walk runs over: each level's filter, none at the
      subset level. */
  function WalkFilters(t: Target): (r: seq<seq<nat>>)
    requires Resolvable(t) && t.nodeIdx != 0
    ensures |r| == |t.seqPath| + 1 && r[0] == []
    ensures forall i :: 0 <= i < |t.seqPath| ==> r[i + 1] == LevelFilter(t, i)
  {
    [[]] + seq(|t.seqPath|, i requires 0 <= i < |t.seqPath| => LevelFilter(t, i))
  }

  /** The data field `collectData` fills for one target. A target that
      matched no node gets one missing value (an empty string for a long
      string) and the counts `[[1]]`; a found target gets its node's values,
      filtered when any level has a filter. The `missing` flag keeps its
      default. */
  function CollectField(t: Target, lookup: nat -> LookupEntry, asWritten: bool): (r: Result<DataField, RunError>)
    requires Resolvable(t)
    ensures r.Ok? ==> r.value.target == t && !r.value.missing
    ensures t.nodeIdx == 0 ==>
              r == Ok(DataField(t, [if t.typeInfo.isLongString then Text("") else MissingValue], [[1]], false))
    ensures t.nodeIdx != 0 && r.Ok? ==> r.value.seqCounts == StoredCounts(t, lookup, asWritten)
    ensures t.nodeIdx != 0 && !HasFilter(t) ==> r.Ok? && r.value.data == Source(t, lookup)
    ensures t.nodeIdx != 0 && HasFilter(t) ==>
              r.Ok? == MakeFilteredData(Source(t, lookup), WalkCounts(t, lookup), WalkFilters(t)).Ok? &&
              (r.Ok? ==> Picks(Source(t, lookup), Walk(WalkCounts(t, lookup), WalkFilters(t), 0, false, 0).kept, r.value.data))
  {
    if t.nodeIdx == 0 then
      Ok(DataField(t, [if t.typeInfo.isLongString then Text("") else MissingValue], [[1]], false))
    else
      var src := Source(t, lookup);
      var stored := StoredCounts(t, lookup, asWritten);
      if !HasFilter(t) then Ok(DataField(t, src, stored, false))
      else
        var data :- MakeFilteredData(src, WalkCounts(t, lookup), WalkFilters(t));
        Ok(DataField(t, data, stored, false))
  }

  /** The product, over the filtered levels from `i` on, of the sum of the
      level's stored counts: how many values the stored counts describe. */
  function StoredSize(t: Target, stored: seq<seq<nat>>, i: nat): nat
    requires Resolvable(t) && t.nodeIdx != 0 && |stored| == |t.seqPath| + 1 && i <= |t.seqPath|
    decreases |t.seqPath| - i
  {
    if i == |t.seqPath| then 1
    else (if LevelFilter(t, i) == [] then 1 else Sum(stored[i + 1])) * StoredSize(t, stored, i + 1)
  }

  /** One filtered level keeps as many branches as its corrected stored
      counts add up to; any other level keeps one. */
  lemma KeptWidthStored(t: Target, lookup: nat -> LookupEntry, i: nat)
    requires Resolvable(t) && t.nodeIdx != 0 && i < |t.seqPath|
    ensures KeptWidth(WalkCounts(t, lookup), WalkFilters(t), i + 1)
         == if LevelFilter(t, i) == [] then 1 else Sum(StoredCounts(t, lookup, false)[i + 1])
  {
    if LevelFilter(t, i) == [] {
      KeptWidthUnfiltered(t, lookup, i);
    } else {
      KeptWidthFiltered(t, lookup, i);
    }
  }

  lemma KeptWidthUnfiltered(t: Target, lookup: nat -> LookupEntry, i: nat)
    requires Resolvable(t) && t.nodeIdx != 0 && i < |t.seqPath| && LevelFilter(t, i) == []
    ensures KeptWidth(WalkCounts(t, lookup), WalkFilters(t), i + 1) == 1
  {
    var counts := WalkCounts(t, lookup);
    assert WalkFilters(t)[i + 1] == [];
    assert counts[i + 1] == [1];
  }

  lemma KeptWidthFiltered(t: Target, lookup: nat -> LookupEntry, i: nat)
    requires Resolvable(t) && t.nodeIdx != 0 && i < |t.seqPath| && LevelFilter(t, i) != []
    ensures KeptWidth(WalkCounts(t, lookup), WalkFilters(t), i + 1) == Sum(StoredCounts(t, lookup, false)[i + 1])
  {
    KeptWidthLevel(t, lookup, i);
    StoredLevel(t, lookup, i);
  }

  lemma KeptWidthLevel(t: Target, lookup: nat -> LookupEntry, i: nat)
    requires Resolvable(t) && t.nodeIdx != 0 && i < |t.seqPath| && LevelFilter(t, i) != []
    ensures KeptWidth(WalkCounts(t, lookup), WalkFilters(t), i + 1) == Sum(FilteredCounts(LevelFilter(t, i), LevelCounts(t, lookup, i)))
  {
  }

  lemma StoredLevel(t: Target, lookup: nat -> LookupEntry, i: nat)
    requires Resolvable(t) && t.nodeIdx != 0 && i < |t.seqPath| && LevelFilter(t, i) != []
    ensures StoredCounts(t, lookup, false)[i + 1] == FilteredCounts(LevelFilter(t, i), LevelCounts(t, lookup, i))
  {
  }

  lemma {:induction false} KeptLeavesStored(t: Target, lookup: nat -> LookupEntry, i: nat)
    requires Resolvable(t) && t.nodeIdx != 0 && i <= |t.seqPath|
    ensures KeptLeaves(WalkCounts(t, lookup), WalkFilters(t), i + 1) == StoredSize(t, StoredCounts(t, lookup, false), i)
    decreases |t.seqPath| - i
  {
    if i < |t.seqPath| {
      KeptLeavesStored(t, lookup, i + 1);
      KeptWidthStored(t, lookup, i);
    }
  }

  /** With the stored counts corrected to the repeats a filter keeps, a
      filtered field holds exactly as many values as its counts describe. */
  lemma CollectFieldCountsData(t: Target, lookup: nat -> LookupEntry)
    requires Resolvable(t) && t.nodeIdx != 0 && HasFilter(t)
    requires CollectField(t, lookup, false).Ok?
    ensures var f := CollectField(t, lookup, false).value;
            |f.data| == StoredSize(t, f.seqCounts, 0)
  {
    var f := CollectField(t, lookup, false).value;
    var m := MakeFilteredData(Source(t, lookup), WalkCounts(t, lookup), WalkFilters(t));
    FilteredFieldData(t, lookup);
    assert |f.data| == KeptLeaves(WalkCounts(t, lookup), WalkFilters(t), 0);
    KeptLeavesTop(t, lookup);
    KeptLeavesStored(t, lookup, 0);
  }

  lemma FilteredFieldData(t: Target, lookup: nat -> LookupEntry)
    requires Resolvable(t) && t.nodeIdx != 0 && HasFilter(t)
    requires CollectField(t, lookup, false).Ok?
    ensures CollectField(t, lookup, false).value.data
         == MakeFilteredData(Source(t, lookup), WalkCounts(t, lookup), WalkFilters(t)).value
  {
  }

  /** The subset level has one entry and no filter. */
  lemma KeptLeavesTop(t: Target, lookup: nat -> LookupEntry)
    requires Resolvable(t) && t.nodeIdx != 0
    ensures KeptLeaves(WalkCounts(t, lookup), WalkFilters(t), 0) == KeptLeaves(WalkCounts(t, lookup), WalkFilters(t), 1)
  {
  }

  /** A target whose one filtered level has a single entry repeated twice,
      under the filter `{1, 2, 3}`. */
  const OverTarget: Target := Target(
    "x", "*/R[1,2,3]/V", 7,
    [TargetComponent(QueryComponent("*", 0, [], true), 1, 0, 0, SubsetType, 0),
     TargetComponent(QueryComponent("R", 0, [1, 2, 3], false), 5, 1, 1, TableType(0), 0)],
    DefaultTypeInfo, "", [1], ["*", "*/R"], [0, 1])

  function OverLookup(n: nat): LookupEntry {
    if n == 5 then LookupEntry([2], [Number(1.0), Number(2.0)]) else LookupEntry([], [])
  }

  /** As the code writes them, the stored counts promise three values where
      the filtered data has two: any target whose one level is filtered by
      `{1, 2, 3}` over a single entry repeated twice. */
  lemma StoredCountsMismatch(t: Target, lookup: nat -> LookupEntry)
    requires Resolvable(t) && t.nodeIdx != 0 && |t.seqPath| == 1
    requires LevelFilter(t, 0) == [1, 2, 3] && LevelCounts(t, lookup, 0) == [2]
    requires |Source(t, lookup)| == 2
    ensures var f := CollectField(t, lookup, true);
            && f.Ok?
            && f.value.seqCounts == [[1], [3]]
            && |f.value.data| == 2
            && StoredSize(t, f.value.seqCounts, 0) == 3
  {
    OneLevelData(t, lookup);
    SameData(t, lookup);
    OneLevelCounts(t, lookup, true, 2);
  }

  /** `OverTarget` and `OverLookup` are such a target. */
  lemma OverShowsMismatch()
    ensures var f := CollectField(OverTarget, OverLookup, true);
            && f.Ok?
            && f.value.seqCounts == [[1], [3]]
            && |f.value.data| == 2
            && StoredSize(OverTarget, f.value.seqCounts, 0) == 3
  {
    assert LevelFilter(OverTarget, 0) == [1, 2, 3];
    StoredCountsMismatch(OverTarget, OverLookup);
  }

  /** The walk of such a target runs over the entry's two repeats under the
      filter, and keeps both of them. */
  lemma OneLevelData(t: Target, lookup: nat -> LookupEntry)
    requires Resolvable(t) && t.nodeIdx != 0 && |t.seqPath| == 1
    requires LevelFilter(t, 0) == [1, 2, 3] && LevelCounts(t, lookup, 0) == [2]
    requires |Source(t, lookup)| == 2
    ensures CollectField(t, lookup, false).Ok?
    ensures |CollectField(t, lookup, false).value.data| == 2
  {
    assert HasFilter(t);
    var counts := WalkCounts(t, lookup);
    var filters := WalkFilters(t);
    assert counts == [[1], [2]];
    assert filters == [[], [1, 2, 3]];
    WalkSpec(counts, filters, 0, false, 0);
    SumSingle(2);
    assert Leaves(counts, filters, 1) == 2;
    assert Leaves(counts, filters, 0) == 2;
    assert CollectField(t, lookup, false).Ok?;
    CollectFieldCountsData(t, lookup);
    assert Hits([1, 2, 3], 2) == 2;
    OneLevelCounts(t, lookup, false, 2);
  }

  /** The stored counts do not change which values are collected. */
  lemma SameData(t: Target, lookup: nat -> LookupEntry)
    requires Resolvable(t)
    ensures CollectField(t, lookup, true).Ok? == CollectField(t, lookup, false).Ok?
    ensures CollectField(t, lookup, true).Ok? ==>
              CollectField(t, lookup, true).value.data == CollectField(t, lookup, false).value.data
  {
  }

  /** A path with one filtered level over a single entry stores one count,
      and that count is all the stored counts describe. */
  lemma OneLevelCounts(t: Target, lookup: nat -> LookupEntry, asWritten: bool, c: nat)
    requires Resolvable(t) && t.nodeIdx != 0 && |t.seqPath| == 1
    requires LevelFilter(t, 0) != [] && LevelCounts(t, lookup, 0) == [c]
    ensures var k := if asWritten then |LevelFilter(t, 0)| else Hits(LevelFilter(t, 0), c);
            && StoredCounts(t, lookup, asWritten) == [[1], [k]]
            && StoredSize(t, [[1], [k]], 0) == k
  {
    var k := if asWritten then |LevelFilter(t, 0)| else Hits(LevelFilter(t, 0), c);
    var r := StoredCounts(t, lookup, asWritten);
    StoredCountsLevels(t, lookup, asWritten, 0);
    assert r[1] == [k];
    SumSingle(k);
  }

  lemma SumSingle(x: nat)
    ensures Sum([x]) == x
  {
    assert [x][..0] == [];
  }

  // ---------------------------------------------------------------------------
  // The frame collectData fills

  predicate AllResolvable(targets: seq<Target>) {
    forall i :: 0 <= i < |targets| ==> Resolvable(targets[i])
  }

  /** The data fields of the targets, in order, or a read out of range.
      `asWritten` picks the stored counts of a filtered level: the code's
      `max(filter.size(), 1)` per entry, or the repeats the filter keeps. */
  function CollectFields(targets: seq<Target>, lookup: nat -> LookupEntry, asWritten: bool): (r: Result<seq<DataField>, RunError>)
    requires AllResolvable(targets)
    ensures r.Ok? <==> forall i :: 0 <= i < |targets| ==> CollectField(targets[i], lookup, asWritten).Ok?
    ensures r.Ok? ==> |r.value| == |targets| &&
                      forall i :: 0 <= i < |targets| ==> CollectField(targets[i], lookup, asWritten) == Ok(r.value[i])
  {
    if forall i | 0 <= i < |targets| :: CollectField(targets[i], lookup, asWritten).Ok? then
      Ok(seq(|targets|, i requires 0 <= i < |targets| => CollectField(targets[i], lookup, asWritten).value))
    else
      Err(ReadOutOfRange)
  }

  /** `collectData`: a new frame whose field `i` is filled from target `i`;
      the fields past the last target keep their defaults, and the earlier
      frames are untouched. A found target's counts are the stored counts
      chosen by `asWritten` (`true` is the code as written). */
  function CollectData(rs: ResultSet, targets: seq<Target>, lookup: nat -> LookupEntry, asWritten: bool): (r: Result<ResultSet, RunError>)
    requires FramesShaped(rs) && |targets| <= |rs.names| && AllResolvable(targets)
    ensures r.Ok? <==> forall i :: 0 <= i < |targets| ==> CollectField(targets[i], lookup, asWritten).Ok?
    ensures r.Ok? ==> FramesShaped(r.value) && r.value.names == rs.names
    ensures r.Ok? ==> |r.value.frames| == |rs.frames| + 1 && r.value.frames[..|rs.frames|] == rs.frames
    ensures r.Ok? ==> forall i :: 0 <= i < |targets| ==>
                        CollectField(targets[i], lookup, asWritten) == Ok(r.value.frames[|rs.frames|].fields[i])
    ensures r.Ok? ==> forall i :: 0 <= i < |targets| && targets[i].nodeIdx != 0 ==>
                        r.value.frames[|rs.frames|].fields[i].seqCounts == StoredCounts(targets[i], lookup, asWritten)
    ensures r.Ok? ==> forall i :: |targets| <= i < |rs.names| ==> r.value.frames[|rs.frames|].fields[i] == DefaultField
  {
    var next := NextDataFrame(rs);
    NextDataFrameShaped(rs);
    var fields :- CollectFields(targets, lookup, asWritten);
    var blank := next.frames[|rs.frames|].fields;
    var frame := DataFrame(fields + blank[|fields|..]);
    var r := next.(frames := rs.frames + [frame]);
    assert forall j :: 0 <= j < |rs.frames| ==> r.frames[j] == rs.frames[j];
    Ok(r)
  }

  /** As written, every entry of a filtered level of a collected field
      stores the filter's size, whatever that entry's repeat count; the
      corrected counts store the number of repeats the filter keeps. */
  lemma CollectDataFilteredCounts(rs: ResultSet, targets: seq<Target>, lookup: nat -> LookupEntry,
                                  asWritten: bool, i: nat, level: nat, k: nat)
    requires FramesShaped(rs) && |targets| <= |rs.names| && AllResolvable(targets)
    requires CollectData(rs, targets, lookup, asWritten).Ok?
    requires i < |targets| && targets[i].nodeIdx != 0 && level < |targets[i].seqPath|
    requires LevelFilter(targets[i], level) != [] && k < |LevelCounts(targets[i], lookup, level)|
    ensures var f := CollectData(rs, targets, lookup, asWritten).value.frames[|rs.frames|].fields[i];
            |f.seqCounts[level + 1]| == |LevelCounts(targets[i], lookup, level)| &&
            f.seqCounts[level + 1][k]
              == if asWritten then |LevelFilter(targets[i], level)|
                 else Hits(LevelFilter(targets[i], level), LevelCounts(targets[i], lookup, level)[k])
  {
    StoredCountsLevels(targets[i], lookup, asWritten, level);
  }

  // ---------------------------------------------------------------------------
  // findTargets

  /** The query set: the names in order and, for each, the queries
      `queriesFor(name)` lists. A name is only ever added with a query. */
  datatype QuerySet = QuerySet(names: seq<string>, queries: seq<seq<Query>>)

  predicate ValidQuerySet(qs: QuerySet) {
    |qs.queries| == |qs.names| && forall i :: 0 <= i < |qs.names| ==> |qs.queries[i]| >= 1
  }

  /** A node on the way from the subset root to a table node. */
  datatype PathNode = PathNode(nodeIdx: nat, parentIdx: nat, dimParentIdx: nat, nodeType: NodeType, fixedRepCount: nat)

  /** The table node a query path leads to, with the nodes on its way. */
  datatype TableNode = TableNode(nodeIdx: nat, pathNodes: seq<PathNode>, typeInfo: TypeInfo, mnemonic: string, mnemonicCnt: nat)

  /** The subset table of the current subset: the root's node index and
      `getNodeForPath`. SubsetTable.h is not part of this model. */
  datatype SubsetTable = SubsetTable(rootIdx: nat, nodeFor: seq<QueryComponent> -> Option<TableNode>)

  /** A node found for a query path lies at the end of the root followed by
      one node per query component. */
  ghost predicate Consistent(table: SubsetTable) {
    forall path :: table.nodeFor(path).Some? ==> |table.nodeFor(path).value.pathNodes| == |path| + 1
  }

  /** The query's subset component matches the current subset variant. */
  predicate Applies(q: Query, sv: SubsetVariant) {
    q.subset.isAnySubset || (q.subset.name == sv.subset && q.subset.index == sv.variantId)
  }

  /** The query applies and its path leads to a node of the table. */
  predicate Resolves(q: Query, sv: SubsetVariant, table: SubsetTable) {
    Applies(q, sv) && table.nodeFor(q.path).Some?
  }

  /** The inner loop of `findTargets`: the first query of the name that
      applies to the subset and leads to a node. */
  function FindQuery(queries: seq<Query>, sv: SubsetVariant, table: SubsetTable): (r: Option<nat>)
    ensures r.Some? ==> r.value < |queries| && Resolves(queries[r.value], sv, table)
    ensures r.Some? ==> forall j :: 0 <= j < r.value ==> !Resolves(queries[j], sv, table)
    ensures r.None? ==> forall j :: 0 <= j < |queries| ==> !Resolves(queries[j], sv, table)
  {
    FindQueryFrom(queries, sv, table, 0)
  }

  function FindQueryFrom(queries: seq<Query>, sv: SubsetVariant, table: SubsetTable, from: nat): (r: Option<nat>)
    requires from <= |queries|
    ensures r.Some? ==> from <= r.value < |queries| && Resolves(queries[r.value], sv, table)
    ensures r.Some? ==> forall j :: from <= j < r.value ==> !Resolves(queries[j], sv, table)
    ensures r.None? ==> forall j :: from <= j < |queries| ==> !Resolves(queries[j], sv, table)
    decreases |queries| - from
  {
    if from == |queries| then None
    else if Applies(queries[from], sv) && table.nodeFor(queries[from].path).Some? then Some(from)
    else FindQueryFrom(queries, sv, table, from + 1)
  }

  /** The target of a name no query resolves: node 0, the first query's
      text, one dimension path, the default type and export dimension 0. */
  function EmptyTarget(name: string, queryStr: string): Target {
    Target(name, queryStr, 0, [], DefaultTypeInfo, "", [], [DefaultQueryText], [0])
  }

  /** The components of a found target: the subset at the root, then one
      per query component with the node the table found for it. The root's
      fixed repeat count keeps its default, 0. */
  function TargetPath(q: Query, nodes: seq<PathNode>, rootIdx: nat): (p: seq<TargetComponent>)
    requires |nodes| == |q.path| + 1
    ensures |p| == |q.path| + 1
    ensures p[0].queryComponent == q.subset && p[0].nodeId == rootIdx && p[0].nodeType == SubsetType
    ensures forall k :: 1 <= k < |p| ==> p[k].queryComponent == q.path[k - 1] && p[k].nodeId == nodes[k].nodeIdx
  {
    seq(|q.path| + 1, k requires 0 <= k < |q.path| + 1 =>
      if k == 0 then TargetComponent(q.subset, rootIdx, 0, 0, SubsetType, 0)
      else TargetComponent(q.path[k - 1], nodes[k].nodeIdx, nodes[k].parentIdx, nodes[k].dimParentIdx,
                           nodes[k].nodeType, nodes[k].fixedRepCount))
  }

  /** The target `findTargets` makes for one name. `setPath` stands for
      `Target::setPath`, which derives the repeated levels, dimension paths
      and export dimensions from the components. */
  function MakeTarget(name: string, queries: seq<Query>, sv: SubsetVariant, table: SubsetTable,
                      setPath: seq<TargetComponent> -> PathLayout): (t: Target)
    requires |queries| >= 1 && Consistent(table)
    ensures t.name == name
    ensures FindQuery(queries, sv, table).None? ==>
              t.nodeIdx == 0 && t.exportDimIdxs == [0] && t.queryStr == queries[0].text &&
              t.path == [] && t.seqPath == [] && t.typeInfo == DefaultTypeInfo
    ensures FindQuery(queries, sv, table).Some? ==>
              var q := queries[FindQuery(queries, sv, table).value];
              var node := table.nodeFor(q.path).value;
              && t.queryStr == q.text && t.nodeIdx == node.nodeIdx && t.typeInfo == node.typeInfo
              && |t.path| == |q.path| + 1
              && t.longStrId == node.mnemonic + "#" + Decimal.Show(node.mnemonicCnt)
              && setPath(t.path) == PathLayout(t.seqPath, t.dimPaths, t.exportDimIdxs)
  {
    match FindQuery(queries, sv, table)
    case None => EmptyTarget(name, queries[0].text)
    case Some(i) =>
      var q := queries[i];
      var node := table.nodeFor(q.path).value;
      var path := TargetPath(q, node.pathNodes, table.rootIdx);
      var lay := setPath(path);
      Target(name, q.text, node.nodeIdx, path, node.typeInfo, node.mnemonic + "#" + Decimal.Show(node.mnemonicCnt),
             lay.seqPath, lay.dimPaths, lay.exportDimIdxs)
  }

  /** The targets found so far, per subset variant. */
  type TargetCache = map<SubsetVariant, seq<Target>>

  datatype Found = Found(targets: seq<Target>, cache: TargetCache)

  /** `findTargets`: the cached list for a variant already seen; otherwise
      one target per name, in the query set's order, which is then cached. */
  function FindTargets(cache: TargetCache, qs: QuerySet, sv: SubsetVariant, table: SubsetTable,
                       setPath: seq<TargetComponent> -> PathLayout): (r: Found)
    requires ValidQuerySet(qs) && Consistent(table)
    ensures sv in cache ==> r == Found(cache[sv], cache)
    ensures sv !in cache ==>
              && |r.targets| == |qs.names|
              && (forall i :: 0 <= i < |qs.names| ==> r.targets[i] == MakeTarget(qs.names[i], qs.queries[i], sv, table, setPath))
              && r.cache == cache[sv := r.targets]
  {
    if sv in cache then Found(cache[sv], cache)
    else
      var targets := seq(|qs.names|, i requires 0 <= i < |qs.names| =>
                         MakeTarget(qs.names[i], qs.queries[i], sv, table, setPath));
      Found(targets, cache[sv := targets])
  }

  /** Asking again for the same variant, whatever the table, gives the same
      targets and leaves the cache as it is. */
  lemma FindTargetsTwice(cache: TargetCache, qs: QuerySet, sv: SubsetVariant, table: SubsetTable,
                         setPath: seq<TargetComponent> -> PathLayout, table2: SubsetTable,
                         setPath2: seq<TargetComponent> -> PathLayout)
    requires ValidQuerySet(qs) && Consistent(table) && Consistent(table2)
    ensures var r := FindTargets(cache, qs, sv, table, setPath);
            FindTargets(r.cache, qs, sv, table2, setPath2) == r
  {
  }

  /** `Target::setPath` never reports more repeated levels than the path
      has components after the subset. */
  ghost predicate SetPathFits(setPath: seq<TargetComponent> -> PathLayout) {
    forall p :: |p| >= 1 ==> |setPath(p).seqPath| < |p|
  }

  /** Every cached list holds one target per name, in order, and each can be
      collected. */
  predicate CacheValid(cache: TargetCache, qs: QuerySet) {
    forall sv :: sv in cache ==>
      |cache[sv]| == |qs.names| && AllResolvable(cache[sv]) &&
      forall i :: 0 <= i < |qs.names| ==> cache[sv][i].name == qs.names[i]
  }

  /** `findTargets` keeps the cache valid, and what it returns is the cached
      list for the variant. */
  lemma FindTargetsValid(cache: TargetCache, qs: QuerySet, sv: SubsetVariant, table: SubsetTable,
                         setPath: seq<TargetComponent> -> PathLayout)
    requires ValidQuerySet(qs) && Consistent(table) && SetPathFits(setPath) && CacheValid(cache, qs)
    ensures var r := FindTargets(cache, qs, sv, table, setPath);
            CacheValid(r.cache, qs) && sv in r.cache && r.cache[sv] == r.targets
  {
    var r := FindTargets(cache, qs, sv, table, setPath);
    if sv !in cache {
      forall i | 0 <= i < |r.targets| ensures Resolvable(r.targets[i]) && r.targets[i].name == qs.names[i] {
        var t := r.targets[i];
        if t.nodeIdx != 0 {
          assert |t.path| >= 1;
          assert setPath(t.path).seqPath == t.seqPath;
        }
      }
    }
  }

  // ---------------------------------------------------------------------------
  // accumulate

  /** What a query runner keeps between subsets: its target cache and the
      result set it fills. */
  datatype Runner = Runner(cache: TargetCache, results: ResultSet)

  /** `accumulate`: find the targets of the current subset, then collect
      their data into a new frame (`asWritten` as for `CollectData`). */
  function Accumulate(run: Runner, qs: QuerySet, sv: SubsetVariant, table: SubsetTable,
                      setPath: seq<TargetComponent> -> PathLayout, lookup: nat -> LookupEntry,
                      asWritten: bool): (r: Result<Runner, RunError>)
    requires ValidQuerySet(qs) && Consistent(table) && SetPathFits(setPath)
    requires CacheValid(run.cache, qs) && FramesShaped(run.results) && |qs.names| <= |run.results.names|
    ensures r.Ok? ==> CacheValid(r.value.cache, qs) && sv in r.value.cache
    ensures r.Ok? ==> FramesShaped(r.value.results) && r.value.results.names == run.results.names
    ensures r.Ok? ==> |r.value.results.frames| == |run.results.frames| + 1 &&
                      r.value.results.frames[..|run.results.frames|] == run.results.frames
    ensures r.Ok? ==> var frame := r.value.results.frames[|run.results.frames|];
                      forall i :: 0 <= i < |qs.names| ==> FieldName(frame.fields[i]) == qs.names[i]
  {
    var found := FindTargets(run.cache, qs, sv, table, setPath);
    FindTargetsValid(run.cache, qs, sv, table, setPath);
    var results :- CollectData(run.results, found.targets, lookup, asWritten);
    Ok(Runner(found.cache, results))
  }
}
