/**
 * Meta-attribute resolution for tables and columns: a specific override
 * wins, tables fall back to the filter chain's general attributes, and raw
 * values are realised one attribute name at a time
 * (OverrideRepository.java lines 491-553).
 */
module MetaAttributes {
  import opened Wrappers
  import opened Keys
  import opened TableFilters

  /** A realised attribute (`org.hibernate.mapping.MetaAttribute`). */
  datatype MetaAttribute = MetaAttribute(name: string, values: seq<string>)

  /** `MetaAttributeBinder.toRealMetaAttribute(name, values)`, which is not
      part of this model and is taken as a given pure function. */
  type Realizer = (string, seq<SimpleMetaAttribute>) -> MetaAttribute

  /** `toMetaAttributes`: every raw attribute name realised from its values. */
  function RealizeAll(raw: MetaMap, realize: Realizer): (r: map<string, MetaAttribute>)
    ensures r.Keys == raw.Keys
    ensures |r| == |raw|
  {
    var r := map name | name in raw :: realize(name, raw[name]);
    assert r.Keys == raw.Keys;
    r
  }

  /**
   * `tableToMetaAttributes`: the table's own non-empty raw map if there is
   * one, else the first general map in the filter chain if it is non-empty,
   * else null. A non-null result is never empty.
   */
  function TableMeta(specific: map<TableIdentifier, MetaMap>, filters: seq<TableFilter>,
                     ti: TableIdentifier, realize: Realizer): (r: Option<map<string, MetaAttribute>>)
    ensures r.Some? ==> |r.value| > 0
    ensures ti in specific && |specific[ti]| > 0 ==> r == Some(RealizeAll(specific[ti], realize))
  {
    if ti in specific && |specific[ti]| > 0 then Some(RealizeAll(specific[ti], realize))
    else match GeneralAttributes(filters, ti)
      case Some(general) => if |general| > 0 then Some(RealizeAll(general, realize)) else None
      case None => None
  }

  /** `columnToMetaAttributes`: only the column's own non-empty raw map
      counts; there is no filter-chain fallback for columns. */
  function ColumnMeta(specific: map<TableColumnKey, MetaMap>, key: TableColumnKey,
                      realize: Realizer): (r: Option<map<string, MetaAttribute>>)
    ensures r.Some? <==> key in specific && |specific[key]| > 0
    ensures r.Some? ==> r.value.Keys == specific[key].Keys
  {
    if key in specific && |specific[key]| > 0 then Some(RealizeAll(specific[key], realize)) else None
  }

  /** Without a specific map, the filter that first gives general attributes
      decides alone: its map is realised if non-empty, and an empty one
      yields null even when later filters hold attributes. */
  lemma GeneralFallback(specific: map<TableIdentifier, MetaMap>, filters: seq<TableFilter>,
                        ti: TableIdentifier, realize: Realizer, i: int)
    requires ti !in specific || |specific[ti]| == 0
    requires 0 <= i < |filters| && filters[i].metaAttributesFor(ti).Some?
    requires forall j | 0 <= j < i :: filters[j].metaAttributesFor(ti).None?
    ensures var general := filters[i].metaAttributesFor(ti).value;
            TableMeta(specific, filters, ti, realize) ==
              if |general| > 0 then Some(RealizeAll(general, realize)) else None
  {
    var q := (f: TableFilter) => f.metaAttributesFor(ti);
    FirstAnswerSpec(filters, q);
    assert AnswersFirstAt(filters, q, i);
  }

  /** A table with neither a specific map nor any general map has none. */
  lemma NoAttributesAnywhere(specific: map<TableIdentifier, MetaMap>, filters: seq<TableFilter>,
                             ti: TableIdentifier, realize: Realizer)
    requires ti !in specific || |specific[ti]| == 0
    requires forall j | 0 <= j < |filters| :: filters[j].metaAttributesFor(ti).None?
    ensures TableMeta(specific, filters, ti, realize).None?
  {
    FirstAnswerSpec(filters, (f: TableFilter) => f.metaAttributesFor(ti));
  }
}
