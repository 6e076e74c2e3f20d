/**
 * `create_context_info`: the record of an XBRL context (section 4.7 of the
 * XBRL 2.1 Specification) with a deterministic id built from the period, the
 * consolidation flag and the dimensions in sorted order.
 */
module ContextInfo {
  import opened Wrappers
  import opened Dicts
  import opened Text
  import opened Dates
  import opened Sorting

  datatype Entity = Entity(name: string, identifier: string)

  /** `start_date` is present only for a duration context. */
  datatype Period = Period(endDate: string, startDate: Option<string>)

  /** The dict the tool returns; `dimensions` is present only when non-empty. */
  datatype Context = Context(
    id: string,
    entity: Entity,
    period: Period,
    isConsolidated: bool,
    dimensions: Option<Entries<string>>)

  /** `i<end>` for an instant, `d<start>to<end>` for a duration. */
  function PeriodPart(start: Option<Date>, end: Date): string
  {
    match start
    case None => "i" + Basic(end)
    case Some(s) => "d" + Basic(s) + "to" + Basic(end)
  }

  function ConsolidationFlag(consolidated: bool): string
  {
    if consolidated then "c" else "s"
  }

  /** The id before any dimension parts. */
  function BaseId(start: Option<Date>, end: Date, consolidated: bool): string
  {
    "ctx_" + PeriodPart(start, end) + "_" + ConsolidationFlag(consolidated)
  }

  /** `[f"{name}-{value}" for name, value in dims]` */
  function DimensionParts(dims: seq<Pair>): (parts: seq<string>)
    ensures |parts| == |dims|
  {
    if dims == [] then [] else DimensionParts(dims[..|dims| - 1]) + [DimensionPart(dims[|dims| - 1])]
  }

  function DimensionPart(d: Pair): string
  {
    d.0 + "-" + d.1
  }

  /** `_` and the joined dimension parts in sorted order; empty without dimensions. */
  function DimensionSuffix(dims: Entries<string>): string
  {
    if |dims| > 0 then "_" + Join("_", DimensionParts(Sort(dims))) else ""
  }

  function ContextId(start: Option<Date>, end: Date, consolidated: bool, dims: Entries<string>): string
  {
    BaseId(start, end, consolidated) + DimensionSuffix(dims)
  }

  /** The record `create_context_info` returns. */
  function ContextFor(
    entityName: string, entityIdentifier: string, periodEnd: Date, periodStart: Option<Date>,
    isConsolidated: bool, dimensions: Entries<string>): Context
  {
    Context(
      ContextId(periodStart, periodEnd, isConsolidated, dimensions),
      Entity(entityName, entityIdentifier),
      Period(Extended(periodEnd), if periodStart.Some? then Some(Extended(periodStart.value)) else None),
      isConsolidated,
      if |dimensions| > 0 then Some(dimensions) else None)
  }

  /**
   * The tool itself. A missing `dimensions` argument and an empty dict
   * behave alike in the source, so both are the empty entry list here.
   */
  method CreateContextInfo(
    entityName: string, entityIdentifier: string, periodEnd: Date, periodStart: Option<Date>,
    isConsolidated: bool, dimensions: Entries<string>)
    returns (info: Context)
    ensures info == ContextFor(entityName, entityIdentifier, periodEnd, periodStart, isConsolidated, dimensions)
  {
    var periodPart := if periodStart.None? then "i" + Basic(periodEnd)
                      else "d" + Basic(periodStart.value) + "to" + Basic(periodEnd);
    var contextId := "ctx_" + periodPart + "_" + (if isConsolidated then "c" else "s");
    assert contextId == BaseId(periodStart, periodEnd, isConsolidated);
    if |dimensions| > 0 {
      var dimParts := CollectDimensionParts(Sort(dimensions));
      if |dimParts| > 0 {
        contextId := contextId + "_" + Join("_", dimParts);
      }
      assert contextId == BaseId(periodStart, periodEnd, isConsolidated) + ("_" + Join("_", dimParts));
    } else {
      assert contextId == BaseId(periodStart, periodEnd, isConsolidated) + "";
    }
    assert contextId == ContextId(periodStart, periodEnd, isConsolidated, dimensions);
    info := Context(contextId, Entity(entityName, entityIdentifier), Period(Extended(periodEnd), None),
                    isConsolidated, None);
    if periodStart.Some? {
      info := info.(period := info.period.(startDate := Some(Extended(periodStart.value))));
    }
    if |dimensions| > 0 {
      info := info.(dimensions := Some(dimensions));
    }
  }

  /** The loop over the sorted dimensions that builds `dim_parts`. */
  method CollectDimensionParts(sorted: seq<Pair>) returns (dimParts: seq<string>)
    ensures dimParts == DimensionParts(sorted)
  {
    dimParts := [];
    for i := 0 to |sorted|
      invariant dimParts == DimensionParts(sorted[..i])
    {
      var (dimName, dimValue) := sorted[i];
      assert sorted[..i + 1][..i] == sorted[..i];
      dimParts := dimParts + [dimName + "-" + dimValue];
    }
    assert sorted[..|sorted|] == sorted;
  }

  /** What an id says about its context: the period and the consolidation flag. */
  datatype PeriodKey = PeriodKey(start: Option<Date>, end: Date, consolidated: bool)

  /** Read the period and the flag back from a context id; `None` if it is not one. */
  function ParseContextId(id: string): Option<PeriodKey>
  {
    if |id| >= 15 && id[..5] == "ctx_i" && id[13] == '_' && id[14] in "cs"
       && (|id| == 15 || id[15] == '_') && ParseBasic(id[5..13]).Some? then
      Some(PeriodKey(None, ParseBasic(id[5..13]).value, id[14] == 'c'))
    else if |id| >= 25 && id[..5] == "ctx_d" && id[13..15] == "to" && id[23] == '_' && id[24] in "cs"
       && (|id| == 25 || id[25] == '_') && ParseBasic(id[5..13]).Some? && ParseBasic(id[15..23]).Some? then
      Some(PeriodKey(Some(ParseBasic(id[5..13]).value), ParseBasic(id[15..23]).value, id[24] == 'c'))
    else None
  }

  lemma DimensionSuffixShape(dims: Entries<string>)
    ensures var suffix := DimensionSuffix(dims);
      (suffix == "" <==> |dims| == 0) && (suffix != "" ==> suffix[0] == '_')
  {
  }

  lemma InstantBaseLayout(end: Date, consolidated: bool)
    ensures var base := BaseId(None, end, consolidated);
      && |base| == 15 && base[..5] == "ctx_i" && base[5..13] == Basic(end) && base[13] == '_'
      && base[14..] == ConsolidationFlag(consolidated)
  {
    InstantLayout(Basic(end), ConsolidationFlag(consolidated));
  }

  /** The layout of `ctx_i<b>_<f>`, for any strings of the right lengths. */
  lemma InstantLayout(b: string, f: string)
    requires |b| == 8 && |f| == 1
    ensures var base := "ctx_" + ("i" + b) + "_" + f;
      && |base| == 15 && base[..5] == "ctx_i" && base[5..13] == b && base[13] == '_' && base[14..] == f
  {
    var head := "ctx_" + ("i" + b);
    assert head == "ctx_i" + b;
    var base := head + "_" + f;
    assert base[..13] == head;
  }

  lemma DurationBaseLayout(start: Date, end: Date, consolidated: bool)
    ensures var base := BaseId(Some(start), end, consolidated);
      && |base| == 25 && base[..5] == "ctx_d" && base[5..13] == Basic(start) && base[13..15] == "to"
      && base[15..23] == Basic(end) && base[23] == '_' && base[24..] == ConsolidationFlag(consolidated)
  {
    DurationLayout(Basic(start), Basic(end), ConsolidationFlag(consolidated));
  }

  /** The layout of `ctx_d<b1>to<b2>_<f>`, for any strings of the right lengths. */
  lemma DurationLayout(b1: string, b2: string, f: string)
    requires |b1| == 8 && |b2| == 8 && |f| == 1
    ensures var base := "ctx_" + ("d" + b1 + "to" + b2) + "_" + f;
      && |base| == 25 && base[..5] == "ctx_d" && base[5..13] == b1 && base[13..15] == "to"
      && base[15..23] == b2 && base[23] == '_' && base[24..] == f
  {
    var head := "ctx_d" + b1;
    var period := head + "to" + b2;
    assert "ctx_" + ("d" + b1 + "to" + b2) == period;
    var base := period + "_" + f;
    assert base[..23] == period;
    assert period[..13] == head;
  }

  /** Where each part of an id sits, for an instant context. */
  lemma InstantIdLayout(end: Date, consolidated: bool, dims: Entries<string>)
    ensures var id := ContextId(None, end, consolidated, dims);
      && |id| >= 15 && id[..5] == "ctx_i" && id[5..13] == Basic(end) && id[13] == '_'
      && (id[14] == 'c' <==> consolidated) && id[14] in "cs"
      && (|id| == 15 <==> |dims| == 0) && (|id| > 15 ==> id[15] == '_')
  {
    InstantBaseLayout(end, consolidated);
    DimensionSuffixShape(dims);
    var base := BaseId(None, end, consolidated);
    var id := ContextId(None, end, consolidated, dims);
    assert id[..15] == base;
    assert id[14] == base[14..][0];
  }

  /** Where each part of an id sits, for a duration context. */
  lemma DurationIdLayout(start: Date, end: Date, consolidated: bool, dims: Entries<string>)
    ensures var id := ContextId(Some(start), end, consolidated, dims);
      && |id| >= 25 && id[..5] == "ctx_d" && id[5..13] == Basic(start) && id[13..15] == "to"
      && id[15..23] == Basic(end) && id[23] == '_'
      && (id[24] == 'c' <==> consolidated) && id[24] in "cs"
      && (|id| == 25 <==> |dims| == 0) && (|id| > 25 ==> id[25] == '_')
  {
    DurationBaseLayout(start, end, consolidated);
    DimensionSuffixShape(dims);
    var base := BaseId(Some(start), end, consolidated);
    var id := ContextId(Some(start), end, consolidated, dims);
    assert id[..25] == base;
    assert id[24] == base[24..][0];
  }

  /** The id determines the period and the consolidation flag it was built from. */
  lemma ContextIdRoundTrip(start: Option<Date>, end: Date, consolidated: bool, dims: Entries<string>)
    requires Valid(end) && (start.Some? ==> Valid(start.value))
    ensures ParseContextId(ContextId(start, end, consolidated, dims)) == Some(PeriodKey(start, end, consolidated))
  {
    BasicRoundTrip(end);
    if start.None? {
      InstantIdLayout(end, consolidated, dims);
    } else {
      BasicRoundTrip(start.value);
      DurationIdLayout(start.value, end, consolidated, dims);
      var id := ContextId(start, end, consolidated, dims);
      assert id[..5] != "ctx_i" by {
        assert id[..5][4] == 'd';
      }
    }
  }

  /** Contexts with different periods or flags never share an id. */
  lemma ContextIdInjective(
    s1: Option<Date>, e1: Date, c1: bool, d1: Entries<string>,
    s2: Option<Date>, e2: Date, c2: bool, d2: Entries<string>)
    requires Valid(e1) && (s1.Some? ==> Valid(s1.value))
    requires Valid(e2) && (s2.Some? ==> Valid(s2.value))
    requires ContextId(s1, e1, c1, d1) == ContextId(s2, e2, c2, d2)
    ensures s1 == s2 && e1 == e2 && c1 == c2
  {
    ContextIdRoundTrip(s1, e1, c1, d1);
    ContextIdRoundTrip(s2, e2, c2, d2);
  }

  /**
   * The dimension parts follow the base id in sorted order, one per
   * dimension.
   */
  lemma DimensionPartsSorted(start: Option<Date>, end: Date, consolidated: bool, dims: Entries<string>)
    requires |dims| > 0
    ensures exists s: seq<Pair> ::
      && Sorted(s) && multiset(s) == multiset(dims)
      && ContextId(start, end, consolidated, dims) == BaseId(start, end, consolidated) + "_" + Join("_", DimensionParts(s))
  {
    SortSortedPermutation(dims);
    var s := Sort(dims);
    assert Sorted(s) && multiset(s) == multiset(dims);
  }

  /** Reordering the dimensions dict does not change the id. */
  lemma DimensionOrderIrrelevant(start: Option<Date>, end: Date, consolidated: bool, d1: Entries<string>, d2: Entries<string>)
    requires multiset(d1) == multiset(d2)
    ensures ContextId(start, end, consolidated, d1) == ContextId(start, end, consolidated, d2)
  {
    SortIgnoresOrder(d1, d2);
    assert |d1| == |multiset(d1)| == |multiset(d2)| == |d2|;
  }

  /**
   * The dimension parts are joined without escaping, so two different
   * dimension dicts can give the same id: `{"a-b": "c"}` and `{"a": "b-c"}`
   * both end in `_a-b-c`.
   */
  lemma DimensionsCollide(start: Option<Date>, end: Date, consolidated: bool)
    ensures var d1, d2 := [("a-b", "c")], [("a", "b-c")];
      && multiset(d1) != multiset(d2)
      && ContextId(start, end, consolidated, d1) == ContextId(start, end, consolidated, d2)
  {
    var d1, d2 := [("a-b", "c")], [("a", "b-c")];
    assert Sort(d1) == d1 && Sort(d2) == d2;
    assert DimensionParts(d1) == ["a-b" + "-" + "c"];
    assert DimensionParts(d2) == ["a" + "-" + "b-c"];
    assert "a-b" + "-" + "c" == "a" + "-" + "b-c";
    assert d1[0] != d2[0];
    assert d1[0] !in multiset(d2);
  }

  /** A dimension whose name has no `-` and whose name and value have no `_`. */
  predicate PlainDimension(d: Pair)
  {
    '-' !in d.0 && '_' !in d.0 && '_' !in d.1
  }

  lemma {:induction false} DimensionPartsPlain(dims: seq<Pair>)
    requires forall d :: d in dims ==> PlainDimension(d)
    ensures forall p :: p in DimensionParts(dims) ==> '_' !in p
    decreases |dims|
  {
    if dims != [] {
      var init := dims[..|dims| - 1];
      assert forall d :: d in init ==> d in dims;
      DimensionPartsPlain(init);
      assert dims[|dims| - 1] in dims;
    }
  }

  /** Without `-` in the names, the parts determine the dimensions. */
  lemma {:induction false} DimensionPartsInjective(s1: seq<Pair>, s2: seq<Pair>)
    requires forall d :: d in s1 ==> PlainDimension(d)
    requires forall d :: d in s2 ==> PlainDimension(d)
    requires DimensionParts(s1) == DimensionParts(s2)
    ensures s1 == s2
    decreases |s1|
  {
    if s1 != [] {
      var n := |s1| - 1;
      var i1, i2 := s1[..n], s2[..n];
      assert s1[n] in s1 && s2[n] in s2;
      var parts := DimensionParts(s1);
      assert parts[n] == DimensionPart(s1[n]) && parts[n] == DimensionPart(s2[n]);
      SplitAtFirst('-', s1[n].0, s1[n].1, s2[n].0, s2[n].1);
      assert DimensionParts(i1) == parts[..n] == DimensionParts(i2);
      assert forall d :: d in i1 ==> d in s1;
      assert forall d :: d in i2 ==> d in s2;
      DimensionPartsInjective(i1, i2);
      assert s1 == i1 + [s1[n]] && s2 == i2 + [s2[n]];
    }
  }

  /**
   * When no dimension name contains `-` and no name or value contains `_`,
   * the id determines the dimensions, up to their order.
   */
  lemma ContextIdDimensionsInjective(start: Option<Date>, end: Date, consolidated: bool, d1: Entries<string>, d2: Entries<string>)
    requires forall d :: d in d1 ==> PlainDimension(d)
    requires forall d :: d in d2 ==> PlainDimension(d)
    requires ContextId(start, end, consolidated, d1) == ContextId(start, end, consolidated, d2)
    ensures multiset(d1) == multiset(d2)
  {
    var base := BaseId(start, end, consolidated);
    var suffix1, suffix2 := DimensionSuffix(d1), DimensionSuffix(d2);
    assert suffix1 == ContextId(start, end, consolidated, d1)[|base|..];
    assert suffix2 == ContextId(start, end, consolidated, d2)[|base|..];
    DimensionSuffixShape(d1);
    DimensionSuffixShape(d2);
    if |d1| > 0 {
      var s1, s2 := Sort(d1), Sort(d2);
      SortSortedPermutation(d1);
      SortSortedPermutation(d2);
      assert forall d :: d in s1 ==> d in multiset(s1);
      assert forall d :: d in s2 ==> d in multiset(s2);
      DimensionPartsPlain(s1);
      DimensionPartsPlain(s2);
      var p1, p2 := DimensionParts(s1), DimensionParts(s2);
      assert Join("_", p1) == suffix1[1..] == suffix2[1..] == Join("_", p2);
      JoinInjective('_', p1, p2);
      DimensionPartsInjective(s1, s2);
    }
  }

  /**
   * The period always carries the end date in extended form, and the start
   * date in extended form exactly for a duration; the dimensions key is
   * present exactly when there are dimensions; the entity and flag are
   * passed through.
   */
  lemma ContextFields(
    entityName: string, entityIdentifier: string, periodEnd: Date, periodStart: Option<Date>,
    isConsolidated: bool, dimensions: Entries<string>)
    requires Valid(periodEnd) && (periodStart.Some? ==> Valid(periodStart.value))
    ensures var c := ContextFor(entityName, entityIdentifier, periodEnd, periodStart, isConsolidated, dimensions);
      && c.entity == Entity(entityName, entityIdentifier)
      && c.isConsolidated == isConsolidated
      && ParseExtended(c.period.endDate) == Some(periodEnd)
      && (c.period.startDate.Some? <==> periodStart.Some?)
      && (c.period.startDate.Some? ==> ParseExtended(c.period.startDate.value) == periodStart)
      && (c.dimensions.Some? <==> |dimensions| > 0)
      && (c.dimensions.Some? ==> c.dimensions.value == dimensions)
  {
    ExtendedRoundTrip(periodEnd);
    if periodStart.Some? {
      ExtendedRoundTrip(periodStart.value);
    }
  }
}
